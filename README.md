# Warehouse robot grid navigation, modelled in Dafny

This project models the core of a grid-based warehouse simulation (`final.py`). A robot on a
rows x cols grid collects items one at a time. Static obstacles, plain dynamic obstacles and
fast dynamic obstacles share the grid with it:

- **Placement** (`initialize_grid`): starting from an all-free grid, places the static
  obstacles, then the dynamic obstacles, the fast dynamic obstacles, the items and the robot,
  each on a cell that is still free. Every fast obstacle starts with its flag set.
- **Obstacle tick** (`move_dynamic_obstacles` and its inner `move_obstacle`): each plain
  dynamic obstacle tries the four directions in a shuffled order and moves onto the first
  in-bounds free neighbour. It stays put when it has none. A fast obstacle moves only when
  its flag is set, and its flag flips on every tick.
- **Route planning** (`heuristic`, `a_star`): A* search on the 4-connected grid with the
  Manhattan heuristic. Only 'S' and 'D1' cells block the search; fast obstacles, items and
  the robot do not. The result is the route from the first step after the start to the goal,
  or `None`.
- **Collection loop** (`collect_all_items`, `move_step`):
  - It sorts the remaining items by distance from the robot and pops the nearest.
  - It plans a route to that item, then walks the route one cell per timer callback.
  - On each step it counts a collision when the next cell is in one of the obstacle lists, and
    lets the obstacles tick.
  - At the end of the route it counts the item as collected and starts over.

## Modules

- `grid.dfy` (`Grid`): cells, positions, the Manhattan heuristic, and `Snapshot`, the value
  view of the mutable `array2` grid.
- `obstacles.dfy` (`Obstacles`): `move_obstacle` and `move_dynamic_obstacles`. Each is an
  imperative method proved equal to a value-level specification (`MoveOne`, `Sweep`, `Tick`).
  Lemmas state what a tick does to the board.
- `pathfinder.dfy` (`PathFinder`): `a_star`, with the open set, the parent links and the cost
  maps it keeps, and its path-building loop. The method is proved to return a shortest route
  and to return `None` exactly when no route exists.
- `world.dfy` (`World`): `initialize_grid`. Each placement loop is proved against
  `PlaceMany`, and the layout `InitLayout` is proved to have the promised shape.
- `selection.dfy` (`Selection`): the distance sort of `collect_all_items`, as a stable
  insertion sort. It is proved sorted, a permutation of its input, and stable, and its head
  is proved to be the first item at the least distance.
- `navigation.dfy` (`Navigation`): the class `GridNavigationApp`, whose fields are the
  simulation state. `Step` performs one timer callback. `AppState` is the fields as a value,
  `Inv` is the invariant every turn keeps, and `Collect`, `Move` and `Arrival` say what each
  kind of turn does.

Randomness becomes parameters:

- the shuffled direction orders are sequences that satisfy `IsShuffle`;
- the cells `random.randint` would draw are a finite sequence of candidates.

## Model

| member | source | states |
|---|---|---|
| Grid.Heuristic | final.py:269-270 | The Manhattan distance is zero exactly when the two cells are equal (and never negative). |
| Grid.HeuristicSymmetric | final.py:269-270 | The distance from a to b equals the distance from b to a. |
| Grid.HeuristicTriangle | final.py:269-270 | The triangle inequality, which makes the heuristic consistent for unit-cost steps. |
| Obstacles.FirstFree | final.py:241-243 | Gives the index of the first direction that leads to a free cell, or the number of directions if none does; every direction before it is blocked. |
| Obstacles.MoveObstacle | final.py:236-247 | The grid and the returned position are exactly `MoveOne` of the old grid: the obstacle moves to the first free in-bounds neighbour in the drawn order and its old cell becomes free, or nothing changes. |
| Obstacles.MoveObstacleEffect | final.py:236-247 | One move either changes nothing, or takes one cardinal step onto a cell that was free, freeing the old cell, tagging the new one and leaving every other cell alone. The obstacle stays exactly when all four neighbours are blocked. |
| Obstacles.MoveEach | final.py:253-255 | Grid and list after the loop over plain dynamic obstacles equal `Sweep` of the old grid: each obstacle moves in list order and sees the moves before it. |
| Obstacles.MoveFast | final.py:257-265 | Every fast obstacle's flag is negated and the flags past the list are untouched. Grid and list equal `Sweep` with the old flags: an obstacle whose flag was set moves, and one whose flag was clear stays. |
| Obstacles.MoveDynamicObstacles | final.py:235-266 | The returned flag array is the one passed in and the collision count comes back unchanged. The flags are flipped. Grid and both lists equal `Tick` of the old grid. |
| Obstacles.SweepLandsOnFree | final.py:241-245 | In a pass over a list of obstacles, an obstacle that moved landed on a cell that was free on the board left by the obstacles before it in the list. |
| Obstacles.TickFrame | final.py:253-265 | A tick keeps the grid's cells and both lists' lengths and order. Every obstacle stays or takes one step to a listed or free cell. A fast obstacle whose flag is clear stays. Every occupied cell no obstacle stood on keeps its tag. |
| Obstacles.TickKeepsAgreement | final.py:253-265 | Suppose the obstacles stand on distinct cells with matching 'D1'/'D2' tags. Then after a tick they still do, and every tag occupies as many cells as before. |
| Obstacles.SweepKeepsCounts | final.py:253-265 | A sweep of obstacles standing on distinct cells of their own tag keeps the number of cells of every tag. |
| PathFinder.PopMin | final.py:281 | `heappop`: returns a least entry in the (f, row, col) tuple order and removes exactly one copy of it. |
| PathFinder.Traversable | final.py:293-294 | A neighbour may be entered exactly when it is on the grid and holds neither 'S' nor 'D1'. |
| PathFinder.RelaxNeighbor | final.py:292-300 | One neighbour update equals `RelaxDir`: a traversable neighbour that becomes cheaper through the current cell gets it as parent, the new g and f costs, and a pushed entry. |
| PathFinder.ExpandCell | final.py:291-300 | The neighbour loop over the four directions, in the program's order, equals `ExpandUpTo` with all four directions. |
| PathFinder.ExpandUpTo | final.py:291-300 | Expanding a cell never changes that cell's own cost. |
| PathFinder.BuildPath | final.py:283-289 | Following the parent links back from the goal and reversing gives a route from the start to the goal. The route is no longer than the goal's cost. |
| PathFinder.GoalOptimal | final.py:280-289 | When the goal's entry is the least one popped, its cost is at most the length of every route. |
| PathFinder.NoRoute | final.py:280-301 | When the open set runs empty, no route reaches the goal. |
| PathFinder.Frontier | final.py:280-300 | The A* frontier property: along any walk, the open set holds an entry no worse than the walk's length plus the heuristic, or the walk's end is already settled no costlier. |
| PathFinder.AStar | final.py:272-301 | A returned route enters only passable cells, one cardinal step at a time, and ends on the goal; no route is shorter. `None` is returned exactly when no route exists. Start equal to goal gives the empty route. The grid is not modified. |
| World.NextFree | final.py:186-188 | Gives the first candidate from a given index on that lies on a free cell; all candidates before it are occupied. |
| World.PlaceManyEffect | final.py:185-191 | A placement keeps the grid's cells, tags each placed cell, which was free before and is placed only once, and leaves every other cell alone. |
| World.PlaceAgrees | final.py:183-228 | Placing one kind on free cells keeps every cell's tag in agreement with the lists placed so far. |
| World.DrawFree | final.py:186-191 | The redraw loop stops at the first candidate that lies on a free cell, which is `NextFree`. |
| World.PlaceNext | final.py:186-191 | One pass of a placement loop: it stops at the next free candidate, tags it and advances the placement by one. |
| World.PlaceAll | final.py:184-221 | One placement loop, run on the grid, succeeds exactly when `PlaceMany` does. It then leaves the grid, the placed list and the next unread candidate as `PlaceMany` says. |
| World.InitLayoutFacts | final.py:180-232 | The built grid has exactly the rows x cols cells. The lists have the requested lengths and no repeats. Every cell holds a kind's tag exactly when it is in that kind's list, so the lists are pairwise disjoint and every other cell is free. |
| World.RobotOnFreeCell | final.py:224-228 | The robot's cell holds 'R' and belongs to no obstacle or item list. |
| World.InitializeGrid | final.py:180-232 | It succeeds exactly when the candidates suffice, and then returns a fresh grid and lists equal to `InitLayout`. The flag list has one `true` per fast obstacle. |
| Selection.Insert | final.py:138 | Insertion into the sorted list: one element more, the same elements, and the head is the new element or the old head. |
| Selection.InsertSorted | final.py:138 | Inserting into a list sorted by distance keeps it sorted. |
| Selection.SortByDistance | final.py:138 | The sort by distance from the robot is a permutation of the items. |
| Selection.SortIsSorted | final.py:138 | The sorted list is ordered by distance from the robot. |
| Selection.SortIsStable | final.py:138 | The sort is stable: the items at each distance keep their relative order. |
| Selection.FirstNearest | final.py:138-139 | Gives the index of an item at the least distance, with every earlier item strictly farther. |
| Selection.NearestComesFirst | final.py:138-139 | The head of the sorted list is the first item, in list order, at the least distance. |
| Navigation.InitialInv | final.py:29-36 | The state right after `initialize_grid` with the program's constants satisfies the loop invariant. |
| Navigation.CollectKeepsInv | final.py:131-145 | Choosing an item keeps the invariant, given that a route found leads from the robot to the chosen item. |
| Navigation.CollectChoosesNearest | final.py:131-145 | The chosen item is the first item at the least distance. It leaves the list and nothing else does, and the rest stays sorted. The loop stops exactly when no route to the item exists. |
| Navigation.FlipTwice | final.py:259-264 | Two ticks restore every fast obstacle's flag, so a fast obstacle may move on every other tick: its flag runs true, false, true, and so on. |
| Navigation.MoveKeepsStatics | final.py:150-165 | Freeing the robot's cell, drawing it on a non-static cell and ticking keeps every static obstacle on its 'S' cell. No moving obstacle ends up on a static cell. |
| Navigation.MoveKeepsInv | final.py:147-171 | One step of the route keeps the invariant, whatever orders the obstacles draw. |
| Navigation.MoveHitsOnlyMovingObstacles | final.py:150-169 | The robot steps onto the next cell of its route, which is never a static obstacle, and the step is counted. A collision is counted exactly when the cell was listed for a moving obstacle before the tick, and at most one per step. |
| Navigation.ArriveKeepsInv | final.py:172-176 | Counting the item at the end of the route keeps the invariant, and the robot stands on that item's cell. |
| Navigation.MoveOnGrid | final.py:150-165 | The grid side of a step: the grid and obstacle lists equal `Tick` of the grid with the robot moved, and the flags are flipped. |
| Navigation.GridNavigationApp.constructor | final.py:23-36 | A fresh grid and flag array; the fields equal the layout `initialize_grid` builds, with zero counters and no next item. The invariant holds. |
| Navigation.GridNavigationApp.CollectAllItems | final.py:131-145 | With no item left the loop finishes. Otherwise the chosen item is the first at the least distance and is popped, and the rest stays sorted by distance. The loop walks a shortest route to the item, or stops exactly when none exists. Nothing else changes, and the invariant is kept. |
| Navigation.GridNavigationApp.MoveStep | final.py:147-171 | The new state is exactly `Move` of the old one: the old cell is freed and the robot drawn on the next route cell. A collision is counted against the pre-tick lists. Then the obstacles tick, the flags flip and the step is counted. |
| Navigation.GridNavigationApp.Arrive | final.py:172-176 | The item counts as collected without a look at the grid, and the loop returns to choosing; the invariant is kept. |
| Navigation.GridNavigationApp.Step | final.py:131-176 | One timer callback keeps the invariant. It is a `Move` inside the route and an `Arrival` at its end. A stalled or finished loop does nothing. Choosing with no item left finishes the loop. Otherwise choosing changes only the item list, the next item and the phase: the first item at the least distance is chosen and popped, and the rest stays sorted by distance. The loop then walks a shortest route to that item, or stops exactly when no route exists. |
| Navigation.PopNearest | final.py:138-140 | Popping the head of the sorted list leaves the other items, distinct and still sorted; the head was one of the items. |
| Navigation.MoveCanEraseRobot | final.py:152-166 | A state satisfying the invariant in which one step has the robot draw 'R' over a fast obstacle's cell. That obstacle then moves away and frees the cell, so afterwards the robot's cell reads free and no cell holds 'R'. |
| Navigation.DistinctPermutation | final.py:138 | A permutation of a list without repeats has no repeats. |
| Navigation.RouteAvoidsStatics | final.py:293-294 | A route never crosses a static obstacle. |

## Left out

- The Tk window is not modelled: the canvas, images, labels, buttons, message boxes,
  `update_canvas` and `update_info`. They only display state.
- The `simulation_running` flag and the start, pause and quit buttons are not modelled.
  `collect_all_items` and `move_step` also stop when the flag is off; the model always runs.
  `reset_simulation` (final.py:109-119) is not modelled either. It stops the simulation,
  redraws the grid and zeroes the counters as the constructor does. Unlike the constructor,
  it keeps `next_item`, which only the canvas reads (final.py:96-97).
- Timer pacing (`canvas.after(500, ...)`) is not modelled. One timer callback is one `Step`.
  Two chained calls each become two `Step`s:
  - `collect_all_items` followed by `move_step(0)`;
  - the arrival followed by `collect_all_items`.
- `random.randint` and `random.shuffle` are parameters. Placement reads a finite sequence of
  candidate cells, and every tick receives one direction order per obstacle (`IsShuffle`).
- `World.InitializeGrid`: the `while True` redraw loops read a finite candidate sequence.
  When it runs out, the method reports failure instead of drawing forever, and its other
  results are then unspecified. The class constructor requires candidates that suffice.
- `float('inf')` as the default g cost is an absent key in the cost map.
- `heapq` is a sequence with a linear search for the least (f, row, col) entry. It pops the
  same entry a binary heap would.
- `PathFinder.AStar`: which of several shortest routes comes back is not pinned down, only
  that it is shortest.
- `move_dynamic_obstacles` ignores its `robot_position` parameter and passes
  `collision_count` through unchanged; the model does the same. `collected_path` is never
  used by the program and is not modelled.
- The grid and the lists are not kept in agreement by `move_step`. The robot overwrites
  whatever tag is on its new cell. An obstacle that leaves a cell marks it free even if the
  robot stood there; `MoveCanEraseRobot` gives a state where this happens.
  Nor are the two moving lists kept disjoint. Suppose a 'D1' takes the robot's vacated cell
  while the robot stands on a 'D2' with no free neighbour. That 'D2' stays put. Next step the
  robot leaves and frees that cell, the 'D1' beside it may move onto it, and the idle 'D2'
  still lists it. The invariant therefore states only what does hold: static obstacles
  keep their cells, and the robot never steps onto one.
- Python integers are unbounded, as are Dafny's, so no width is modelled.

The model keeps these behaviours of the code:

- An unreachable item stops the loop (`Stalled`) rather than moving on to the next item. That
  item is neither in the list nor counted as collected.
- Arrival increments the collected count without checking that the cell held an item.
- A collision is counted when the cell is in one of the obstacle lists as they were before
  the tick, not by reading the cell's tag. `MoveHitsOnlyMovingObstacles` shows the static
  list never matches.
- `collect_all_items` treats an empty route like a missing one ("cannot reach").
  `CollectChoosesNearest` shows this never happens, because the robot never stands on a
  remaining item when choosing.
