# Three-rules chase game: navigation, collision and rules core in Dafny

This project models the core of a small tile-based chase game. A player walks a
20 x 15 walled arena collecting lemons and avoiding lava, while a pursuer chases
them along shortest tile paths. The modelled parts are:

- **Geometry** (`geometry.dfy`): integer rectangles with the semantics the game
  takes from pygame's `Rect`. The centre is computed by integer halving,
  overlap is strict (boxes that only touch do not collide), and a pixel maps to
  a tile by floor division by the 32-pixel tile size.
- **Grid** (`grid.dfy`): tile codes (floor 0, wall 1, lemon 2, lava 3, finish 4),
  4-neighbourhoods in the pursuer's expansion order, walks over non-wall tiles,
  and the "does this box overlap a tile of that kind" query.
- **Mover** (`mover.dfy`): the collision-resolving step shared by the player and
  the pursuer. It moves along x and takes the move back on a wall hit, then does
  the same along y.
- **PathFinding** (`pathfinding.dfy`): the pursuer's breadth-first search with
  a predecessor map, read back from the goal and reversed.
- **Levels** (`levels.dfy`): level generation, written as the nested loops of
  the constructor and proved against a cell-by-cell closed form. Also the lemon
  list (extraction, pickup, reset) and the wall, exit and centre-tile queries.
- **Enemies** (`enemies.dfy`): the pursuer. It repaths on a cooldown, steps
  with the mover, and drops a waypoint once it is within a pixel of it.
- **Players** (`players.dfy`): axis-locked movement, pickup scoring and the
  moved-this-frame flag.
- **RuleTracking** (`rules.dfy`): the score, the broken flag and its message
  `"Rule n broken: msg"`, and the soft reset.

The search is proved with a ghost distance per recorded tile. No walk to a
recorded tile is shorter than its distance, and every tile reachable within the
current level is recorded. From these, the path read back is a shortest walk,
and an exhausted search without the goal proves the goal unreachable.

Two details of the code shape the model:

- `_bfs` never checks the start tile (enemy.py:48-58), so `IsWalk` leaves the
  first tile of a path unchecked; only the tiles after it must be in bounds and
  not walls.
- `_ensure_path` keeps a held path whenever it is non-empty, even a single tile
  (enemy.py:68), and `Enemies.Repathed` states exactly that.

## Model

| member | source | states |
|---|---|---|
| Geometry.PixelToTile | enemy.py:41 | the tile index from floor division by 32 is the one whose pixel span holds the coordinate, negative coordinates included |
| Geometry.CollidesWhereCenterLies | level.py:173-174 | a box overlaps every positive-size box that holds its centre pixel |
| Grid.Open | enemy.py:46-47 | what the search may enter: the `inb` and `passable` tests, in bounds and not a wall; it has no contract of its own, and `PathFinding.VisitNeighbours` and `PathFinding.Bfs` state their results through it |
| Grid.Neighbour | enemy.py:54 | the four candidates in the search's expansion order (right, left, down, up); each one is adjacent to the expanded tile |
| Grid.Direction | enemy.py:54 | for two adjacent tiles, gives the expansion index (right, left, down, up) that steps from one to the other |
| Grid.NeighbourAdjacent | enemy.py:54 | the four expanded neighbours are exactly the 4-adjacent tiles |
| Mover.StepX | enemy.py:88-90 | keeps the x move iff the delta is zero or the shifted box is clear of walls, otherwise x is unchanged; y and size are untouched; a box clear of walls stays clear |
| Mover.StepY | enemy.py:91-92 | the same for the y axis |
| Mover.Slide | enemy.py:88-92 | the whole mover, x step then y step (also player.py:46-54 through two calls); the box keeps its size and each coordinate moves by its full delta or not at all |
| Mover.SlideStaysClear | enemy.py:88-92 | wall containment: a box clear of walls before the move is clear after it, whatever the deltas |
| Mover.SlideAxes | enemy.py:88-92 | each coordinate moves by its full delta or not at all; x moves iff the x-shifted box is clear, y iff the y-shift from where x ended is clear |
| Mover.SlideAlongWall | enemy.py:89-92 | sliding: when the x move is blocked and the y-shifted box is clear, y changes by the full delta |
| Mover.SlideSplit | player.py:65-66 | moving x then y in two calls equals one call with both deltas |
| PathFinding.WalkPrefix | enemy.py:56-57 | dropping the last tile of a walk leaves a walk to the tile before it, which is adjacent to the dropped one |
| PathFinding.WalkStaysInside | enemy.py:50-58 | every walk from the start ends inside any neighbour-closed set holding the start |
| PathFinding.ClosedHoldsWalks | enemy.py:60 | a goal outside such a set is unreachable, which justifies the empty result |
| PathFinding.AdvanceLevel | enemy.py:50-52 | once the queue head is one level deeper, every walk of the next length ends on a recorded tile |
| PathFinding.RecordKeepsTree | enemy.py:56-57 | recording an unrecorded open neighbour with its predecessor keeps the links adjacent, keeps distances one step apart and keeps every distance minimal |
| PathFinding.RecordKeepsQueue | enemy.py:58 | appending the new tile keeps the queue ordered by level with every next-level tile queued |
| PathFinding.Reverse | enemy.py:64 | the reversal has the same length and holds element `k` at position `len - 1 - k` |
| PathFinding.VisitSkip | enemy.py:56 | a blocked, out-of-bounds or already recorded neighbour leaves the search state valid |
| PathFinding.VisitRecord | enemy.py:56-58 | recording and queueing an open new neighbour keeps the search state valid and shrinks the unrecorded set |
| PathFinding.VisitNeighbours | enemy.py:53-58 | after the four neighbours, the tree, coverage and queue invariants hold, the dequeued tile is expanded, and the unrecorded set shrank or nothing changed |
| PathFinding.Explore | enemy.py:49-58 | the loop terminates with a predecessor tree of minimal distances; if the goal was never recorded, the recorded set is closed under open neighbours |
| PathFinding.ReversedWalk | enemy.py:61-64 | a predecessor chain read from the goal back to the start, reversed, is a walk from start to goal |
| PathFinding.ReadBack | enemy.py:61-65 | the reconstructed path is a walk from start to goal whose length is the goal's distance plus one |
| PathFinding.Bfs | enemy.py:44-65 | the result is empty iff the goal is unreachable; otherwise it is a walk from start to goal, no walk is shorter, and it is `[start]` when start equals goal |
| Levels.GeneratedWellFormed | level.py:46-72 | a generated matrix has a wall border and no interior wall; the finish tile holds 4, the start tile is floor, and no lava lies in the 3 x 3 blocks around start and finish |
| Levels.WalledArena | level.py:46-49 | the arena is 15 rows of 20 with wall on the border and floor inside |
| Levels.ScatterHazards | level.py:52-60 | each interior cell other than start and finish becomes lava below 0.08, lemon below 0.13, and is otherwise unchanged; border, start and finish are untouched |
| Levels.ClearLavaAround | level.py:66-72 | exactly the lava cells of the 3 x 3 block around the centre that lie in the matrix become floor |
| Levels.PlaceFinishAndClear | level.py:63-72 | the finish tile holds 4 and lava in the blocks around start and finish is cleared; every other cell is unchanged |
| Levels.Generate | level.py:45-72 | the constructor's matrix equals the cell-by-cell closed form for the given draws and is a well-formed arena |
| Levels.RowItems | level.py:146 | a tile is listed iff it is a lemon of that row at or after the column; the list is left to right |
| Levels.ItemsFrom | level.py:146 | a tile is listed iff it is a lemon in a row from `y` on; the list is in row-major order |
| Levels.ExtractItems | level.py:145-146 | `initial_items` lists exactly the lemon tiles, in row-major order, without duplicates |
| Levels.ItemBox | level.py:155-158 | a lemon's pickup box is 28 x 28 and lies strictly inside its tile's box, inset by the pad of 2 on every side |
| Levels.FirstHit | level.py:154-160 | the scan stops at the first item whose inset box overlaps the rectangle; no earlier item overlaps it, and it returns the list length when none does |
| Levels.RemoveFirst | level.py:162 | `list.remove` shortens the list by one |
| Levels.RemoveFirstAt | level.py:159-162 | removing the first hit by value drops exactly its position and keeps the other items in order |
| Levels.WithoutRemoves | level.py:162 | on a duplicate-free list the removed item is gone, nothing new appears and no duplicate arises, so it cannot be picked up again |
| Levels.ScanForOverlap | level.py:137-142 | the row-by-row scan with early return reports true iff some tile of the kind overlaps the rectangle |
| Levels.CentreTile | level.py:167-168 | the floor-divided centre is the tile whose box holds the centre pixel, and no other tile's box holds it; the search also starts and ends on it (enemy.py:70-71) |
| Levels.OnRedOverlapsLava | level.py:173-174 | a positive-size box whose centre is over lava overlaps that lava tile |
| Levels.Level.constructor | level.py:34-102 | the matrix is generated from the draws, the start position is tile (2, 2) in pixels, and both item lists are the extracted lemons |
| Levels.Level.CollidesWithWall | level.py:136-142 | true iff the rectangle overlaps some wall tile; no state changes |
| Levels.Level.TouchesExit | level.py:176-182 | true iff the rectangle overlaps some finish tile; no state changes |
| Levels.Level.ResetRunState | level.py:148-149 | `items` equals the initial snapshot whatever was picked up before, and the level invariant still holds |
| Levels.Level.CheckPickup | level.py:151-164 | true iff some item's inset box overlaps the rectangle; then exactly the first such item is removed and the rest keep their order; otherwise `items` is unchanged |
| Levels.Level.TileAtPixelCenter | level.py:166-171 | the code of the tile whose box holds the centre pixel, or wall when that tile is outside the matrix |
| Levels.Level.IsOnRed | level.py:173-174 | true iff the centre pixel lies in the box of an in-bounds lava tile |
| Enemies.TileFromPx | enemy.py:41 | the tile whose box holds the pixel, and the only one |
| Enemies.CenterForTile | enemy.py:42 | the tile box's centre, which maps back to the same tile |
| Enemies.NearWaypoint | enemy.py:94 | the within-1-px test on both centre coordinates; it has no contract of its own, and `Enemies.AfterWaypoint` states the pop through it |
| Enemies.Repathed | enemy.py:67-73 | the `_ensure_path` relation between the old and the new cooldown and path; it has no contract of its own, and `Enemies.Enemy.EnsurePath` and `Enemies.Enemy.Update` promise it |
| Enemies.AfterWaypoint | enemy.py:94-96 | the path loses exactly its head iff the centre is within 1 px of the next tile's centre on both axes and the head differs from the next tile; otherwise it is unchanged |
| Enemies.WalkStepsDiffer | enemy.py:95 | consecutive tiles of a searched path differ, so the head-differs guard never blocks a pop on a fresh path |
| Enemies.Enemy.constructor | enemy.py:28-36 | a 30 x 30 box at the spawn pixel, with no path and no cooldown |
| Enemies.Enemy.EnsurePath | enemy.py:67-73 | with a positive cooldown and a non-empty path, the cooldown drops by one and the path is kept; otherwise the path is a shortest-or-empty search result between the two centre tiles and the cooldown is 12 |
| Enemies.Enemy.Advance | enemy.py:79-96 | the box takes the wall-reverting step and the path then loses its head exactly under the waypoint rule |
| Enemies.Enemy.Update | enemy.py:75-96 | after planning, a path shorter than 2 means no movement and no path change; otherwise the box slides and the waypoint rule applies; a held path stays non-empty; a box clear of walls stays clear |
| RuleTracking.DigitChar | rules.py:30 | a digit 0-9 is written as a character from '0' to '9' that reads back as the same digit |
| RuleTracking.NatToString | rules.py:30 | the decimal form of a natural number is non-empty and all digits |
| RuleTracking.IntToString | rules.py:30 | the formatted rule number is non-empty and has no space |
| RuleTracking.NatToStringRoundTrip | rules.py:30 | reading the digits back gives the number |
| RuleTracking.IntToStringInjective | rules.py:30 | different rule numbers are formatted differently |
| RuleTracking.BrokenMessage | rules.py:30 | the f-string `"Rule {rule_number} broken: {msg}"`: the text starts with `"Rule "` and ends with the reason |
| RuleTracking.SpaceFreePrefix | rules.py:30 | a space-free prefix followed by a space is determined by the text |
| RuleTracking.BrokenMessageInjective | rules.py:30 | the message determines both the rule number and the reason |
| RuleTracking.Rules.constructor | rules.py:18-22 | a fresh tracker has score 0, no penalties, nothing broken and an empty message |
| RuleTracking.Rules.OnItemPicked | rules.py:25-26 | the score grows by exactly one and nothing else changes |
| RuleTracking.Rules.BreakRule | rules.py:28-30 | the run is broken with message `"Rule n broken: msg"`; score and penalty count are untouched |
| RuleTracking.Rules.AnyBroken | rules.py:33-34 | returns the broken flag and changes nothing |
| RuleTracking.Rules.ResetRunState | rules.py:36-39 | the flag and message are cleared; score and penalty count are kept |
| Players.KeyAxis | player.py:59-60 | `keys[pos] - keys[neg]`: +1 exactly when only the right or down key is held, -1 exactly when only the left or up key is held, and 0 when both or neither are |
| Players.AxisLockedDelta | player.py:59-63 | horizontal keys scaled by speed; the vertical request is dropped whenever the horizontal one is non-zero; each delta is at most the speed |
| Players.AxisLock | player.py:59-66 | in one frame y does not change while a horizontal move is requested, at most one coordinate changes, and by at most the speed |
| Players.Player.constructor | player.py:29-37 | a 30 x 30 box at the start pixel with the given speed, not yet moved |
| Players.Player.ResetPosition | player.py:42-44 | exactly the position changes; size, speed and start are kept |
| Players.Player.MoveAxis | player.py:46-54 | a zero delta is a no-op; a non-zero delta is kept iff the moved box is clear of walls |
| Players.Player.Update | player.py:56-71 | the box slides by the axis-locked request; a pickup happens iff some item overlaps, and then the score grows by one and exactly the first hit item is removed; the moved flag is set iff the position changed; wall containment |

## Left out

- Sprite loading, textures, colours and every `draw` method: these are file-system and rendering calls.
- `main.py`, the game loop, the menus and the high-score file: these are event handling and JSON file I/O around the core.
- `random.seed` and `random.random`: the draws are an input function `draw(x, y)` giving the value drawn for each interior cell, not a pseudo-random generator.
- The `tile_size` parameter of the level and the pursuer is fixed at 32, the value the game passes.
- The float direction step in the pursuer's update (square root, float division, `int()` truncation): `stepX` and `stepY` are integer inputs of `Enemies.Enemy.Update`, and the pursuer's `speed` field, which only feeds that step, is not modelled.
- Players.Player.constructor: the default `speed = 2` of the player's constructor (player.py:29) is not modelled. The speed is always an argument, as it is at the game's only call (main.py:103).
- Key-state decoding from pygame: the input is the `Keys` datatype of four booleans.
- The constructor's loop over the two centres `[start, finish]` is written as two calls of `Levels.ClearLavaAround`.
- Levels.RemoveFirst: its own contract states only the length; the exact result, position `k` dropped, is stated by `Levels.RemoveFirstAt` for the case the pickup uses.
- The search's queue is a sequence from which the head is taken, rather than a double-ended queue.
- Enemies.Enemy.EnsurePath: states that the new path satisfies the shortest-or-empty property, not which of several equally short paths the fixed expansion order picks.
