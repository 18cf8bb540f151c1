/**
 * The collection loop of `GridNavigationApp`: pick the closest item, plan a route to it, walk
 * the route one cell per step while the obstacles move around the robot, count the item as
 * collected at the end of the route, and start over until no item is left.
 *
 * The program chains these through timer callbacks; here each callback is one call of `Step`,
 * and the point the program is at is the `phase` field. The direction orders the obstacles
 * would shuffle are parameters of `Step`, and the candidate cells `initialize_grid` would
 * draw are a parameter of the constructor.
 *
 * `AppState` is the value of the object's fields; `Collect`, `Move` and `Arrival` say what the
 * three kinds of turn do to it, and `Inv` is what every turn preserves.
 */
module Navigation {
  import opened Grid
  import Obstacles
  import PathFinder
  import World
  import Selection

  const GRID_ROWS: nat := 10
  const GRID_COLS: nat := 12
  const ITEM_COUNT: nat := 3
  const STATIC_OBSTACLE_COUNT: nat := 3
  const DYNAMIC_OBSTACLE_COUNT: nat := 1
  const FAST_DYNAMIC_OBSTACLE_COUNT: nat := 2

  /**
   * Where the loop stands: about to choose an item, walking a route (`index` is the next
   * `step_index`), stopped because the chosen item could not be reached, or done.
   */
  datatype Phase = Selecting | Walking(path: seq<Pos>, index: nat) | Stalled | Finished

  /** The fields of `GridNavigationApp` as one value; `board` is the grid and `flags` the fast obstacles' flags. */
  datatype AppState = AppState(board: Board, robot: Pos, statics: seq<Pos>, dynamics: seq<Pos>, fasts: seq<Pos>,
                               flags: seq<bool>, items: seq<Pos>, collected: nat, steps: nat, collisions: nat,
                               nextItem: Option<Pos>, phase: Phase)

  /**
   * Static obstacles keep their 'S' cells, and no moving obstacle and not the robot stands on
   * one of them; everything is on the grid.
   */
  ghost predicate StaticsHold(b: Board, statics: seq<Pos>, dynamics: seq<Pos>, fasts: seq<Pos>, robot: Pos)
  {
    && (forall i :: 0 <= i < |statics| ==> statics[i] in b && b[statics[i]] == StaticObstacle)
    && (forall i :: 0 <= i < |dynamics| ==> dynamics[i] in b && dynamics[i] !in statics)
    && (forall i :: 0 <= i < |fasts| ==> fasts[i] in b && fasts[i] !in statics)
    && robot in b && robot !in statics
  }

  /**
   * The state the loop keeps:
   *  - one flag per fast obstacle;
   *  - the static obstacles hold their cells, and neither the robot nor a moving obstacle
   *    stands on one;
   *  - the remaining items are distinct, and the robot does not stand on one when choosing;
   *  - a route being walked ends at the chosen item, which has left the item list, the robot
   *    stands on the cell it walked to last, and every cell still ahead is on the grid and
   *    not a static obstacle;
   *  - every item is collected, left in the list, or the one chosen and not yet reached
   *    (while walking, or lost when it turned out unreachable);
   *  - there are never more collisions than steps.
   */
  ghost predicate Inv(s: AppState)
  {
    && |s.flags| == |s.fasts|
    && StaticsHold(s.board, s.statics, s.dynamics, s.fasts, s.robot)
    && Obstacles.Distinct(s.items)
    && s.collisions <= s.steps
    && match s.phase
       case Selecting =>
         && s.robot !in s.items
         && s.collected + |s.items| == ITEM_COUNT
       case Walking(path, index) =>
         && s.nextItem.Some? && s.nextItem.value !in s.items
         && 0 < |path| && index <= |path| && path[|path| - 1] == s.nextItem.value
         && (0 < index ==> s.robot == path[index - 1])
         && (forall i :: index <= i < |path| ==> path[i] in s.board && path[i] !in s.statics)
         && s.collected + |s.items| + 1 == ITEM_COUNT
       case Stalled =>
         s.collected + |s.items| + 1 == ITEM_COUNT
       case Finished =>
         s.items == [] && s.collected == ITEM_COUNT
  }

  /** The state right after `initialize_grid`, before the first turn. */
  function Initial(w: World.Layout, flags: seq<bool>): AppState
  {
    AppState(w.board, w.robot, w.statics, w.dynamics, w.fasts, flags, w.items, 0, 0, 0, None, Selecting)
  }

  /** The grid `initialize_grid` builds with the program's constants satisfies the invariant. */
  lemma InitialInv(draws: seq<Pos>, flags: seq<bool>)
    requires World.InitLayout(GRID_ROWS, GRID_COLS, STATIC_OBSTACLE_COUNT, DYNAMIC_OBSTACLE_COUNT, ITEM_COUNT,
                              FAST_DYNAMIC_OBSTACLE_COUNT, draws).Some?
    requires |flags| == FAST_DYNAMIC_OBSTACLE_COUNT
    ensures Inv(Initial(World.InitLayout(GRID_ROWS, GRID_COLS, STATIC_OBSTACLE_COUNT, DYNAMIC_OBSTACLE_COUNT,
                                         ITEM_COUNT, FAST_DYNAMIC_OBSTACLE_COUNT, draws).value, flags))
  {
    World.InitLayoutFacts(GRID_ROWS, GRID_COLS, STATIC_OBSTACLE_COUNT, DYNAMIC_OBSTACLE_COUNT, ITEM_COUNT,
                          FAST_DYNAMIC_OBSTACLE_COUNT, draws);
    World.RobotOnFreeCell(GRID_ROWS, GRID_COLS, STATIC_OBSTACLE_COUNT, DYNAMIC_OBSTACLE_COUNT, ITEM_COUNT,
                          FAST_DYNAMIC_OBSTACLE_COUNT, draws);
    var w := World.InitLayout(GRID_ROWS, GRID_COLS, STATIC_OBSTACLE_COUNT, DYNAMIC_OBSTACLE_COUNT, ITEM_COUNT,
                              FAST_DYNAMIC_OBSTACLE_COUNT, draws).value;
    forall i | 0 <= i < |w.dynamics|
      ensures w.dynamics[i] in w.board && w.dynamics[i] !in w.statics
    {
      assert w.dynamics[i] in w.board;
    }
    forall i | 0 <= i < |w.fasts|
      ensures w.fasts[i] in w.board && w.fasts[i] !in w.statics
    {
      assert w.fasts[i] in w.board;
    }
  }

  /** The item `collect_all_items` goes for: the head of the list sorted by distance from the robot. */
  function Nearest(s: AppState): Pos
    requires s.items != []
  {
    Selection.SortByDistance(s.robot, s.items)[0]
  }

  /**
   * `collect_all_items` once the route to the chosen item is known: with no item left the
   * loop is done; otherwise the sorted list loses its head, which becomes the next item, and
   * the loop walks the route, or stops when the route is missing or empty.
   */
  function Collect(s: AppState, route: Option<seq<Pos>>): AppState
  {
    if s.items == [] then s.(phase := Finished, nextItem := None)
    else
      var sorted := Selection.SortByDistance(s.robot, s.items);
      s.(items := sorted[1..], nextItem := Some(sorted[0]),
         phase := if route.None? || route.value == [] then Stalled else Walking(route.value, 0))
  }

  /** Choosing keeps the invariant, given that a route found leads from the robot to the chosen item. */
  lemma CollectKeepsInv(s: AppState, route: Option<seq<Pos>>)
    requires Inv(s) && s.phase.Selecting?
    requires s.items != [] && route.Some? ==> PathFinder.IsPath(s.board, s.robot, Nearest(s), route.value)
    ensures Inv(Collect(s, route))
  {
    if s.items != [] {
      var sorted := Selection.SortByDistance(s.robot, s.items);
      Selection.SortIsSorted(s.robot, s.items);
      PopNearest(s.robot, s.items, sorted);
      if route.Some? && route.value != [] {
        RouteAvoidsStatics(s.board, s.statics, s.robot, sorted[0], route.value);
      }
    }
  }

  /**
   * What choosing promises: the chosen item is the first of the items closest to the robot,
   * it leaves the list and nothing else does, the rest stays sorted by distance, and the
   * loop stops exactly when no route to the item exists. The robot never stands on an item
   * when choosing, so the search never returns the empty route that the program would also
   * read as "cannot reach".
   */
  lemma CollectChoosesNearest(s: AppState, route: Option<seq<Pos>>)
    requires Inv(s) && s.phase.Selecting? && s.items != []
    requires route.Some? ==> PathFinder.IsPath(s.board, s.robot, Nearest(s), route.value)
    requires route.None? <==> forall q :: !PathFinder.IsPath(s.board, s.robot, Nearest(s), q)
    ensures var t := Collect(s, route);
            && t.nextItem == Some(s.items[Selection.FirstNearest(s.robot, s.items)])
            && multiset(t.items) + multiset{t.nextItem.value} == multiset(s.items)
            && Selection.SortedByDistance(s.robot, t.items)
            && (t.phase.Stalled? <==> forall q :: !PathFinder.IsPath(s.board, s.robot, t.nextItem.value, q))
  {
    var sorted := Selection.SortByDistance(s.robot, s.items);
    Selection.SortIsSorted(s.robot, s.items);
    Selection.NearestComesFirst(s.robot, s.items);
    PopNearest(s.robot, s.items, sorted);
    assert s.robot != sorted[0];
    assert route.Some? ==> route.value != [];
    var t := Collect(s, route);
    assert t.nextItem.value == Nearest(s);
    assert t.phase.Stalled? <==> route.None?;
  }

  /** Every fast obstacle's flag negated. */
  function Flip(flags: seq<bool>): (r: seq<bool>)
    ensures |r| == |flags| && forall i :: 0 <= i < |flags| ==> r[i] == !flags[i]
  {
    seq(|flags|, i requires 0 <= i < |flags| => !flags[i])
  }

  /**
   * Two ticks restore every flag: a fast obstacle is allowed to move on every other tick, and
   * its flag runs true, false, true, ... from the all-true start.
   */
  lemma FlipTwice(flags: seq<bool>)
    ensures Flip(Flip(flags)) == flags
  {
    var r := Flip(Flip(flags));
    assert |r| == |flags|;
    forall i | 0 <= i < |flags|
      ensures r[i] == flags[i]
    {
      assert Flip(flags)[i] == !flags[i];
    }
  }

  /**
   * One `move_step` inside the route: the robot's cell becomes free, the robot moves to the
   * next cell of the route and is drawn there, a collision is counted when that cell is in
   * one of the obstacle lists as they were before the obstacles move, then the obstacles take
   * their turn (which flips every fast obstacle's flag) and the step is counted.
   */
  function Move(s: AppState, dynamicOrders: seq<seq<(int, int)>>, fastOrders: seq<seq<(int, int)>>): AppState
    requires s.phase.Walking? && s.phase.index < |s.phase.path|
    requires |s.flags| == |s.fasts| && |dynamicOrders| == |s.dynamics| && |fastOrders| == |s.fasts|
  {
    var q := s.phase.path[s.phase.index];
    var hit := q in s.dynamics || q in s.fasts || q in s.statics;
    var (board, dynamics, fasts) :=
      Obstacles.Tick(s.board[s.robot := FreeSpace][q := Robot], s.dynamics, s.fasts, s.flags, dynamicOrders, fastOrders);
    s.(board := board, robot := q, dynamics := dynamics, fasts := fasts, flags := Flip(s.flags),
       collisions := s.collisions + (if hit then 1 else 0), steps := s.steps + 1,
       phase := Walking(s.phase.path, s.phase.index + 1))
  }

  /** A valid state in the middle of a route meets what `MoveStep` needs. */
  lemma MoveStepAllowed(s: AppState)
    requires Inv(s) && s.phase.Walking? && s.phase.index < |s.phase.path|
    ensures s.robot in s.board && s.phase.path[s.phase.index] in s.board
    ensures forall i :: 0 <= i < |s.dynamics| ==> s.dynamics[i] in s.board
    ensures forall i :: 0 <= i < |s.fasts| ==> s.fasts[i] in s.board
  {
    if s.phase.index == 0 {
      assert s.robot in s.board;
    }
  }

  /** A state built from the tick's outcome is the state `Move` describes. */
  lemma MoveResult(s: AppState, dynamicOrders: seq<seq<(int, int)>>, fastOrders: seq<seq<(int, int)>>, t: AppState)
    requires s.phase.Walking? && s.phase.index < |s.phase.path|
    requires |s.flags| == |s.fasts| && |dynamicOrders| == |s.dynamics| && |fastOrders| == |s.fasts|
    requires var q := s.phase.path[s.phase.index];
             && (t.board, t.dynamics, t.fasts)
                == Obstacles.Tick(s.board[s.robot := FreeSpace][q := Robot], s.dynamics, s.fasts, s.flags,
                                  dynamicOrders, fastOrders)
             && t.flags == Flip(s.flags) && t.robot == q && t.steps == s.steps + 1
             && t.collisions == s.collisions + (if q in s.dynamics || q in s.fasts || q in s.statics then 1 else 0)
             && t.phase == Walking(s.phase.path, s.phase.index + 1)
             && (t.statics, t.items, t.collected, t.nextItem) == (s.statics, s.items, s.collected, s.nextItem)
    ensures t == Move(s, dynamicOrders, fastOrders)
  {
  }

  /**
   * One move of the robot followed by an obstacle tick keeps the static obstacles where they
   * are and off limits to everything that moves, provided the robot steps onto a cell that
   * is not a static obstacle.
   */
  lemma MoveKeepsStatics(b: Board, statics: seq<Pos>, dynamics: seq<Pos>, fasts: seq<Pos>, flags: seq<bool>,
                         robot: Pos, q: Pos, dynamicOrders: seq<seq<(int, int)>>, fastOrders: seq<seq<(int, int)>>)
    requires StaticsHold(b, statics, dynamics, fasts, robot) && q in b && q !in statics
    requires |flags| == |fasts| && |dynamicOrders| == |dynamics| && |fastOrders| == |fasts|
    requires forall i :: 0 <= i < |dynamicOrders| ==> IsShuffle(dynamicOrders[i])
    requires forall i :: 0 <= i < |fastOrders| ==> IsShuffle(fastOrders[i])
    ensures var r := Obstacles.Tick(b[robot := FreeSpace][q := Robot], dynamics, fasts, flags, dynamicOrders, fastOrders);
            r.0.Keys == b.Keys && StaticsHold(r.0, statics, r.1, r.2, q)
  {
    var b1 := b[robot := FreeSpace][q := Robot];
    assert Obstacles.TickWellFormed(b1, dynamics, fasts, flags, dynamicOrders, fastOrders);
    Obstacles.TickFrame(b1, dynamics, fasts, flags, dynamicOrders, fastOrders);
    var r := Obstacles.Tick(b1, dynamics, fasts, flags, dynamicOrders, fastOrders);
    forall i | 0 <= i < |statics|
      ensures statics[i] in r.0 && r.0[statics[i]] == StaticObstacle
    {
      assert b1[statics[i]] == StaticObstacle;
    }
    forall i | 0 <= i < |r.1|
      ensures r.1[i] in r.0 && r.1[i] !in statics
    {
    }
    forall i | 0 <= i < |r.2|
      ensures r.2[i] in r.0 && r.2[i] !in statics
    {
    }
  }

  /** A step of the route keeps the invariant, whatever orders the obstacles draw. */
  lemma MoveKeepsInv(s: AppState, dynamicOrders: seq<seq<(int, int)>>, fastOrders: seq<seq<(int, int)>>)
    requires Inv(s) && s.phase.Walking? && s.phase.index < |s.phase.path|
    requires |dynamicOrders| == |s.dynamics| && |fastOrders| == |s.fasts|
    requires forall i :: 0 <= i < |dynamicOrders| ==> IsShuffle(dynamicOrders[i])
    requires forall i :: 0 <= i < |fastOrders| ==> IsShuffle(fastOrders[i])
    ensures Inv(Move(s, dynamicOrders, fastOrders))
  {
    var q := s.phase.path[s.phase.index];
    MoveKeepsStatics(s.board, s.statics, s.dynamics, s.fasts, s.flags, s.robot, q, dynamicOrders, fastOrders);
  }

  /**
   * The robot never steps onto a static obstacle, so a collision is counted exactly when it
   * steps onto a cell listed for a moving obstacle, and at most one per step.
   */
  lemma MoveHitsOnlyMovingObstacles(s: AppState, dynamicOrders: seq<seq<(int, int)>>, fastOrders: seq<seq<(int, int)>>)
    requires Inv(s) && s.phase.Walking? && s.phase.index < |s.phase.path|
    requires |dynamicOrders| == |s.dynamics| && |fastOrders| == |s.fasts|
    ensures var t := Move(s, dynamicOrders, fastOrders);
            && t.robot == s.phase.path[s.phase.index] && t.robot !in s.statics
            && t.steps == s.steps + 1
            && (t.collisions == s.collisions + 1 <==> t.robot in s.dynamics || t.robot in s.fasts)
            && (t.collisions == s.collisions || t.collisions == s.collisions + 1)
  {
    assert s.phase.path[s.phase.index] !in s.statics;
  }

  /**
   * Why `Inv` says nothing about the grid agreeing with the lists: on a 1 x 2 grid, the robot
   * steps onto the fast obstacle's cell and draws 'R' over it, then that obstacle moves off and
   * frees the cell it leaves. Afterwards the robot's cell reads free, no cell holds 'R', and
   * the robot's old cell holds 'D2', although the invariant held before the step.
   */
  lemma MoveCanEraseRobot()
    ensures var s := AppState(map[Pos(0, 0) := Robot, Pos(0, 1) := FastDynamicObstacle], Pos(0, 0), [], [],
                              [Pos(0, 1)], [true], [], ITEM_COUNT - 1, 0, 0, Some(Pos(0, 1)),
                              Walking([Pos(0, 1)], 0));
            var t := Move(s, [], [Directions]);
            && Inv(s)
            && t.robot == Pos(0, 1) && t.board[t.robot] == FreeSpace
            && t.board[Pos(0, 0)] == FastDynamicObstacle && t.fasts == [Pos(0, 0)]
            && Count(s.board, Robot) == 1 && Count(t.board, Robot) == 0
  {
    var b := map[Pos(0, 0) := Robot, Pos(0, 1) := FastDynamicObstacle];
    var b1 := b[Pos(0, 0) := FreeSpace][Pos(0, 1) := Robot];
    assert Obstacles.FirstFree(b1, Pos(0, 1), Directions) == 2 by {
      Obstacles.FirstFreeAt(b1, Pos(0, 1), Directions, 2);
    }
    var b2 := b1[Pos(0, 1) := FreeSpace][Pos(0, 0) := FastDynamicObstacle];
    assert CellsWith(b, Robot) == {Pos(0, 0)};
    assert CellsWith(b2, Robot) == {};
  }

  /** `move_step` past the end of the route: the item counts as collected, and the loop goes back to choosing. */
  function Arrival(s: AppState): AppState
  {
    s.(collected := s.collected + 1, phase := Selecting)
  }

  /** Reaching the end of the route keeps the invariant: the robot stands on the chosen item, now off the list. */
  lemma ArriveKeepsInv(s: AppState)
    requires Inv(s) && s.phase.Walking? && s.phase.index == |s.phase.path|
    ensures Inv(Arrival(s)) && Arrival(s).robot == s.nextItem.value
  {
  }

  class GridNavigationApp {
    var grid: array2<Cell>
    var robotPosition: Pos
    var staticPositions: seq<Pos>
    var dynamicPositions: seq<Pos>
    var fastDynamicPositions: seq<Pos>
    var itemPositions: seq<Pos>
    var fastObstacleStates: array<bool>
    var collectedItems: nat
    var stepsTaken: nat
    var collisionCount: nat
    var nextItem: Option<Pos>
    var phase: Phase

    /** The object's fields as a value. */
    ghost function Model(): AppState
      reads this, grid, fastObstacleStates
    {
      AppState(Snapshot(grid), robotPosition, staticPositions, dynamicPositions, fastDynamicPositions,
               fastObstacleStates[..], itemPositions, collectedItems, stepsTaken, collisionCount, nextItem, phase)
    }

    ghost predicate Valid()
      reads this, grid, fastObstacleStates
    {
      Inv(Model())
    }

    /**
     * `__init__` without the window: `initialize_grid` with the program's constants, every
     * counter at zero and no next item.
     */
    constructor (draws: seq<Pos>)
      requires forall k :: 0 <= k < |draws| ==> 0 <= draws[k].row < GRID_ROWS && 0 <= draws[k].col < GRID_COLS
      requires World.InitLayout(GRID_ROWS, GRID_COLS, STATIC_OBSTACLE_COUNT, DYNAMIC_OBSTACLE_COUNT, ITEM_COUNT,
                                FAST_DYNAMIC_OBSTACLE_COUNT, draws).Some?
      ensures fresh(grid) && fresh(fastObstacleStates)
      ensures Model() == Initial(World.InitLayout(GRID_ROWS, GRID_COLS, STATIC_OBSTACLE_COUNT, DYNAMIC_OBSTACLE_COUNT,
                                                  ITEM_COUNT, FAST_DYNAMIC_OBSTACLE_COUNT, draws).value,
                                 seq(FAST_DYNAMIC_OBSTACLE_COUNT, _ => true))
      ensures Valid()
    {
      var ok, g, robot, statics, dynamics, fasts, items, states :=
        World.InitializeGrid(GRID_ROWS, GRID_COLS, STATIC_OBSTACLE_COUNT, DYNAMIC_OBSTACLE_COUNT, ITEM_COUNT,
                             FAST_DYNAMIC_OBSTACLE_COUNT, draws);
      grid, robotPosition, staticPositions, dynamicPositions := g, robot, statics, dynamics;
      fastDynamicPositions, itemPositions, fastObstacleStates := fasts, items, states;
      collectedItems, stepsTaken, collisionCount := 0, 0, 0;
      nextItem, phase := None, Selecting;
      new;
      assert states[..] == seq(FAST_DYNAMIC_OBSTACLE_COUNT, _ => true);
      InitialInv(draws, states[..]);
    }

    /**
     * `collect_all_items`: with no item left the loop is done. Otherwise the items are sorted
     * by distance from the robot, the head is chosen and popped, and a shortest route to it
     * is planned; when the search finds no route, or an empty one, the loop stops with the
     * item neither listed nor collected.
     */
    method CollectAllItems()
      requires Valid() && phase.Selecting?
      modifies this
      ensures Valid()
      ensures grid == old(grid) && fastObstacleStates == old(fastObstacleStates)
      ensures old(itemPositions) == [] ==> Model() == old(Model()).(phase := Finished, nextItem := None)
      ensures old(itemPositions) != [] ==>
                && Model().(items := old(itemPositions), nextItem := old(nextItem), phase := Selecting) == old(Model())
                && nextItem == Some(old(itemPositions)[Selection.FirstNearest(robotPosition, old(itemPositions))])
                && multiset(itemPositions) + multiset{nextItem.value} == multiset(old(itemPositions))
                && Selection.SortedByDistance(robotPosition, itemPositions)
                && (phase.Stalled? || (phase.Walking? && phase.index == 0))
                && (phase.Stalled? <==> forall q :: !PathFinder.IsPath(Snapshot(grid), robotPosition, nextItem.value, q))
                && (phase.Walking? ==>
                      && PathFinder.IsPath(Snapshot(grid), robotPosition, nextItem.value, phase.path)
                      && forall q :: PathFinder.IsPath(Snapshot(grid), robotPosition, nextItem.value, q) ==>
                                       |phase.path| <= |q|)
    {
      ghost var s := Model();
      if itemPositions == [] {
        Choose(None, itemPositions, Finished);
        CollectKeepsInv(s, None);
        return;
      }
      var sorted := Selection.SortByDistance(robotPosition, itemPositions);
      var target := sorted[0];
      var route := PathFinder.AStar(grid, robotPosition, target);
      var next := if route.None? || route.value == [] then Stalled else Walking(route.value, 0);
      Choose(Some(target), sorted[1..], next);
      assert Model() == Collect(s, route);
      CollectKeepsInv(s, route);
      CollectChoosesNearest(s, route);
    }

    /** The fields `collect_all_items` reassigns, set together. */
    method Choose(item: Option<Pos>, rest: seq<Pos>, next: Phase)
      modifies this
      ensures nextItem == item && itemPositions == rest && phase == next
      ensures grid == old(grid) && fastObstacleStates == old(fastObstacleStates)
      ensures robotPosition == old(robotPosition) && staticPositions == old(staticPositions)
      ensures dynamicPositions == old(dynamicPositions) && fastDynamicPositions == old(fastDynamicPositions)
      ensures collectedItems == old(collectedItems) && stepsTaken == old(stepsTaken)
      ensures collisionCount == old(collisionCount)
    {
      nextItem, itemPositions, phase := item, rest, next;
    }

    /**
     * One call of `move_step` with `step_index` inside the route. It needs the robot, the next
     * cell of the route and every moving obstacle to lie on the grid, and one flag per fast
     * obstacle; `Valid` provides all of them, and `MoveKeepsInv` shows the step keeps it.
     */
    method MoveStep(dynamicOrders: seq<seq<(int, int)>>, fastOrders: seq<seq<(int, int)>>)
      requires phase.Walking? && phase.index < |phase.path|
      requires robotPosition in Snapshot(grid) && phase.path[phase.index] in Snapshot(grid)
      requires forall i :: 0 <= i < |dynamicPositions| ==> dynamicPositions[i] in Snapshot(grid)
      requires forall i :: 0 <= i < |fastDynamicPositions| ==> fastDynamicPositions[i] in Snapshot(grid)
      requires fastObstacleStates.Length == |fastDynamicPositions|
      requires |dynamicOrders| == |dynamicPositions| && |fastOrders| == |fastDynamicPositions|
      modifies this, grid, fastObstacleStates
      ensures grid == old(grid) && fastObstacleStates == old(fastObstacleStates)
      ensures Model() == Move(old(Model()), dynamicOrders, fastOrders)
    {
      ghost var s := Model();
      var path, index := phase.path, phase.index;
      var q := path[index];
      var collisions := collisionCount;
      if q in dynamicPositions || q in fastDynamicPositions || q in staticPositions {
        collisions := collisions + 1;
      }
      var g, flagArray := grid, fastObstacleStates;
      var newDynamic, newFast, count :=
        MoveOnGrid(g, flagArray, s.board, s.flags, robotPosition, q, dynamicPositions, fastDynamicPositions,
                   collisions, dynamicOrders, fastOrders);
      ghost var t := s.(board := Snapshot(g), robot := q, dynamics := newDynamic, fasts := newFast,
                        flags := flagArray[..], collisions := collisions, steps := s.steps + 1,
                        phase := Walking(path, index + 1));
      MoveResult(s, dynamicOrders, fastOrders, t);
      Advance(q, newDynamic, newFast, count, stepsTaken + 1, Walking(path, index + 1));
    }

    /** The fields `move_step` and `move_dynamic_obstacles` reassign, set together. */
    method Advance(robot: Pos, dynamics: seq<Pos>, fasts: seq<Pos>, collisions: nat, steps: nat, next: Phase)
      modifies this
      ensures robotPosition == robot && dynamicPositions == dynamics && fastDynamicPositions == fasts
      ensures collisionCount == collisions && stepsTaken == steps && phase == next
      ensures grid == old(grid) && fastObstacleStates == old(fastObstacleStates)
      ensures staticPositions == old(staticPositions) && itemPositions == old(itemPositions)
      ensures collectedItems == old(collectedItems) && nextItem == old(nextItem)
    {
      robotPosition, dynamicPositions, fastDynamicPositions := robot, dynamics, fasts;
      collisionCount, stepsTaken, phase := collisions, steps, next;
    }

    /** `move_step` past the end of the route: the item counts as collected, without a look at the grid. */
    method Arrive()
      requires Valid() && phase.Walking? && phase.index == |phase.path|
      modifies this
      ensures grid == old(grid) && fastObstacleStates == old(fastObstacleStates)
      ensures Model() == Arrival(old(Model()))
      ensures Valid()
    {
      ghost var s := Model();
      collectedItems, phase := collectedItems + 1, Selecting;
      ArriveKeepsInv(s);
    }

    /**
     * One turn of the loop, whatever point it is at: choose an item, take one step of the
     * route, or collect the item at its end. A stalled or finished loop does nothing.
     */
    method Step(dynamicOrders: seq<seq<(int, int)>>, fastOrders: seq<seq<(int, int)>>)
      requires Valid()
      requires |dynamicOrders| == |dynamicPositions| && |fastOrders| == |fastDynamicPositions|
      requires forall i :: 0 <= i < |dynamicOrders| ==> IsShuffle(dynamicOrders[i])
      requires forall i :: 0 <= i < |fastOrders| ==> IsShuffle(fastOrders[i])
      modifies this, grid, fastObstacleStates
      ensures grid == old(grid) && fastObstacleStates == old(fastObstacleStates)
      ensures Valid()
      ensures old(phase).Walking? && old(phase.index) < |old(phase.path)| ==>
                Model() == Move(old(Model()), dynamicOrders, fastOrders)
      ensures old(phase).Walking? && old(phase.index) == |old(phase.path)| ==> Model() == Arrival(old(Model()))
      ensures old(phase).Stalled? || old(phase).Finished? ==> Model() == old(Model())
      ensures old(phase).Selecting? && old(itemPositions) == [] ==>
                Model() == old(Model()).(phase := Finished, nextItem := None)
      ensures old(phase).Selecting? && old(itemPositions) != [] ==>
                && Model().(items := old(itemPositions), nextItem := old(nextItem), phase := Selecting) == old(Model())
                && nextItem == Some(old(itemPositions)[Selection.FirstNearest(robotPosition, old(itemPositions))])
                && multiset(itemPositions) + multiset{nextItem.value} == multiset(old(itemPositions))
                && Selection.SortedByDistance(robotPosition, itemPositions)
                && (phase.Stalled? || (phase.Walking? && phase.index == 0))
                && (phase.Stalled? <==> forall q :: !PathFinder.IsPath(Snapshot(grid), robotPosition, nextItem.value, q))
                && (phase.Walking? ==>
                      && PathFinder.IsPath(Snapshot(grid), robotPosition, nextItem.value, phase.path)
                      && forall q :: PathFinder.IsPath(Snapshot(grid), robotPosition, nextItem.value, q) ==>
                                       |phase.path| <= |q|)
    {
      match phase
      case Selecting =>
        CollectAllItems();
      case Walking(path, index) =>
        if index < |path| {
          ghost var s := Model();
          MoveStepAllowed(s);
          MoveStep(dynamicOrders, fastOrders);
          MoveKeepsInv(s, dynamicOrders, fastOrders);
        } else {
          Arrive();
        }
      case Stalled =>
      case Finished =>
    }
  }

  /**
   * The grid side of `move_step`: the robot's cell is freed, the robot is drawn on q, and the
   * obstacles take their turn, which flips every fast obstacle's flag.
   */
  method MoveOnGrid(grid: array2<Cell>, states: array<bool>, ghost b: Board, ghost flags: seq<bool>, robot: Pos, q: Pos,
                    dynamics: seq<Pos>, fasts: seq<Pos>, collisions: nat,
                    dynamicOrders: seq<seq<(int, int)>>, fastOrders: seq<seq<(int, int)>>)
    returns (newDynamics: seq<Pos>, newFasts: seq<Pos>, count: nat)
    requires b == Snapshot(grid) && flags == states[..] && robot in b && q in b
    requires forall i :: 0 <= i < |dynamics| ==> dynamics[i] in b
    requires forall i :: 0 <= i < |fasts| ==> fasts[i] in b
    requires |fasts| == states.Length && |dynamicOrders| == |dynamics| && |fastOrders| == |fasts|
    modifies grid, states
    ensures count == collisions
    ensures states[..] == Flip(flags)
    ensures (Snapshot(grid), newDynamics, newFasts)
         == Obstacles.Tick(b[robot := FreeSpace][q := Robot], dynamics, fasts, flags, dynamicOrders, fastOrders)
  {
    SnapshotAt(grid, robot);
    SnapshotAt(grid, q);
    OnGrid(grid, dynamics);
    OnGrid(grid, fasts);
    Put(grid, b, robot, FreeSpace);
    Put(grid, b[robot := FreeSpace], q, Robot);
    var flipped;
    newDynamics, newFasts, flipped, count :=
      Obstacles.MoveDynamicObstacles(grid, dynamics, fasts, states, q, collisions, dynamicOrders, fastOrders);
    assert flags[..|fasts|] == flags;
  }

  /** Positions in the grid's value view are in bounds. */
  lemma OnGrid(grid: array2<Cell>, s: seq<Pos>)
    requires forall i :: 0 <= i < |s| ==> s[i] in Snapshot(grid)
    ensures forall i :: 0 <= i < |s| ==> InGrid(grid, s[i])
  {
    forall i | 0 <= i < |s|
      ensures InGrid(grid, s[i])
    {
      SnapshotAt(grid, s[i]);
    }
  }

  /** Taking the head off the sorted list leaves the other items, still sorted and distinct. */
  lemma PopNearest(robot: Pos, items: seq<Pos>, sorted: seq<Pos>)
    requires items != [] && multiset(sorted) == multiset(items)
    requires Obstacles.Distinct(items) && Selection.SortedByDistance(robot, sorted)
    ensures multiset(sorted[1..]) + multiset{sorted[0]} == multiset(items)
    ensures Obstacles.Distinct(sorted[1..]) && sorted[0] !in sorted[1..]
    ensures Selection.SortedByDistance(robot, sorted[1..])
    ensures sorted[0] in items
  {
    assert |sorted| == |items|;
    var rest := sorted[1..];
    assert sorted == [sorted[0]] + rest;
    DistinctPermutation(items, sorted);
    assert sorted[0] in multiset(items);
    forall i, j | 0 <= i < j < |rest|
      ensures rest[i] != rest[j] && Selection.Key(robot, rest[i]) <= Selection.Key(robot, rest[j])
    {
      assert rest[i] == sorted[i + 1] && rest[j] == sorted[j + 1];
    }
    forall i | 0 <= i < |rest|
      ensures rest[i] != sorted[0]
    {
      assert rest[i] == sorted[i + 1];
    }
  }


  /** A permutation of a list without repeats has no repeats. */
  lemma DistinctPermutation(s: seq<Pos>, t: seq<Pos>)
    requires Obstacles.Distinct(s) && multiset(s) == multiset(t)
    ensures Obstacles.Distinct(t)
  {
    forall i, j | 0 <= i < j < |t|
      ensures t[i] != t[j]
    {
      CountOnce(s, t[i]);
      CountTwice(t, i, j);
    }
  }

  /** A list holding the same element at two indices holds it at least twice. */
  lemma CountTwice(t: seq<Pos>, i: nat, j: nat)
    requires i < j < |t|
    ensures t[i] == t[j] ==> multiset(t)[t[i]] >= 2
  {
    assert t == t[..i] + [t[i]] + t[i + 1..j] + [t[j]] + t[j + 1..];
  }

  /** An element occurs at most once in a list without repeats. */
  lemma {:induction false} CountOnce(s: seq<Pos>, x: Pos)
    requires Obstacles.Distinct(s)
    ensures multiset(s)[x] <= 1
  {
    if s != [] {
      assert s == [s[0]] + s[1..];
      CountOnce(s[1..], x);
      if s[0] == x {
        assert x !in s[1..];
      }
    }
  }

  /** A route the search returns never crosses a static obstacle, since those cells are not passable. */
  lemma RouteAvoidsStatics(b: Board, statics: seq<Pos>, robot: Pos, target: Pos, path: seq<Pos>)
    requires forall i :: 0 <= i < |statics| ==> statics[i] in b && b[statics[i]] == StaticObstacle
    requires PathFinder.IsPath(b, robot, target, path)
    ensures forall i :: 0 <= i < |path| ==> path[i] in b && path[i] !in statics
  {
    forall i | 0 <= i < |path|
      ensures path[i] in b && path[i] !in statics
    {
      assert PathFinder.Passable(b, path[i]);
    }
  }
}
