/**
 * `initialize_grid`: an all-free grid of the requested size on which the static obstacles,
 * the plain and the fast dynamic obstacles, the items and the robot are placed, kind by
 * kind, each on a cell that is still free.
 *
 * The program draws random cells until one is free. Here the cells it would draw are a
 * supplied sequence of candidates, read front to back across all placements; a placement
 * that runs out of candidates makes the whole construction fail (`None`), which stands for
 * the program drawing forever.
 */
module World {
  import opened Grid
  import Obstacles

  /** The index of the first candidate from i on that lies on a free cell, or |draws| if none does. */
  function NextFree(b: Board, draws: seq<Pos>, i: nat): (j: nat)
    requires i <= |draws|
    ensures i <= j <= |draws|
    ensures j < |draws| ==> IsFree(b, draws[j])
    ensures forall k :: i <= k < j ==> !IsFree(b, draws[k])
    decreases |draws| - i
  {
    if i == |draws| then i
    else if IsFree(b, draws[i]) then i
    else NextFree(b, draws, i + 1)
  }

  /** The outcome of a placement: the board, the cells placed in order, and the next unread candidate. */
  datatype Placed = Placed(board: Board, cells: seq<Pos>, next: nat)

  /**
   * One placement loop of `initialize_grid`: `count` times, tag the first free candidate from
   * the next unread one on. `None` when the candidates run out first.
   */
  function PlaceMany(b: Board, draws: seq<Pos>, i: nat, count: nat, tag: Cell): (r: Option<Placed>)
    requires i <= |draws|
    ensures r.Some? ==> |r.value.cells| == count && i <= r.value.next <= |draws|
    decreases count
  {
    if count == 0 then Some(Placed(b, [], i))
    else
      var j := NextFree(b, draws, i);
      if j == |draws| then None
      else
        var rest := PlaceMany(b[draws[j] := tag], draws, j + 1, count - 1, tag);
        if rest.None? then None
        else Some(Placed(rest.value.board, [draws[j]] + rest.value.cells, rest.value.next))
  }

  /**
   * What a placement does to the board: it keeps the board's cells, tags each placed cell,
   * which was free before and is placed once only, and leaves every other cell alone.
   */
  lemma {:induction false} PlaceManyEffect(b: Board, draws: seq<Pos>, i: nat, count: nat, tag: Cell)
    requires i <= |draws| && tag != FreeSpace
    requires PlaceMany(b, draws, i, count, tag).Some?
    ensures var r := PlaceMany(b, draws, i, count, tag).value;
            && (forall p :: p in r.board <==> p in b)
            && (forall p :: p in r.cells ==> IsFree(b, p) && r.board[p] == tag)
            && (forall p :: p in b && p !in r.cells ==> r.board[p] == b[p])
            && Obstacles.Distinct(r.cells)
    decreases count
  {
    if count > 0 {
      var j := NextFree(b, draws, i);
      var q := draws[j];
      var b' := b[q := tag];
      PlaceManyEffect(b', draws, j + 1, count - 1, tag);
      var rest := PlaceMany(b', draws, j + 1, count - 1, tag).value;
      var r := PlaceMany(b, draws, i, count, tag).value;
      assert r.cells == [q] + rest.cells && r.board == rest.board;
      assert q !in rest.cells by {
        assert !IsFree(b', q);
      }
      forall p | p in r.cells
        ensures IsFree(b, p) && r.board[p] == tag
      {
        if p != q {
          assert p in rest.cells;
        }
      }
      forall p | p in b && p !in r.cells
        ensures r.board[p] == b[p]
      {
        assert p != q && p !in rest.cells;
      }
      DistinctCons(q, rest.cells);
    }
  }

  /** A cell put in front of distinct cells it is not among keeps them distinct. */
  lemma DistinctCons(q: Pos, s: seq<Pos>)
    requires Obstacles.Distinct(s) && q !in s
    ensures Obstacles.Distinct([q] + s)
  {
    var t := [q] + s;
    forall x, y | 0 <= x < y < |t|
      ensures t[x] != t[y]
    {
      assert t[y] == s[y - 1];
      if x > 0 {
        assert t[x] == s[x - 1];
      }
    }
  }

  /** A grid of the given size with every cell free. */
  ghost function EmptyBoard(rows: int, cols: int): (b: Board)
    ensures forall p :: p in b <==> 0 <= p.row < rows && 0 <= p.col < cols
    ensures forall p :: p in b ==> b[p] == FreeSpace
  {
    map p | p in Cells(rows, cols) :: FreeSpace
  }

  /** The grid and the lists `initialize_grid` returns, but for the flag list. */
  datatype Layout = Layout(board: Board, robot: Pos, statics: seq<Pos>, dynamics: seq<Pos>,
                           fasts: seq<Pos>, items: seq<Pos>)

  /**
   * `initialize_grid` as a value: static obstacles, plain dynamic obstacles, fast dynamic
   * obstacles, items and finally the robot, each kind placed from where the previous one
   * stopped reading the candidates.
   */
  ghost function InitLayout(rows: int, cols: int, staticCount: nat, dynamicCount: nat, itemCount: nat,
                            fastCount: nat, draws: seq<Pos>): Option<Layout>
  {
    var s := PlaceMany(EmptyBoard(rows, cols), draws, 0, staticCount, StaticObstacle);
    if s.None? then None else
    var d := PlaceMany(s.value.board, draws, s.value.next, dynamicCount, DynamicObstacle);
    if d.None? then None else
    var f := PlaceMany(d.value.board, draws, d.value.next, fastCount, FastDynamicObstacle);
    if f.None? then None else
    var it := PlaceMany(f.value.board, draws, f.value.next, itemCount, Item);
    if it.None? then None else
    var r := PlaceMany(it.value.board, draws, it.value.next, 1, Robot);
    if r.None? then None else
    Some(Layout(r.value.board, r.value.cells[0], s.value.cells, d.value.cells, f.value.cells, it.value.cells))
  }

  /**
   * Each kind's cells in a board: a cell holds a kind's tag exactly when it is in that kind's
   * list, and is free exactly when it is in none of them.
   */
  ghost predicate Agrees(b: Board, robots: seq<Pos>, statics: seq<Pos>, dynamics: seq<Pos>, fasts: seq<Pos>,
                         items: seq<Pos>)
  {
    forall p :: p in b ==>
      && (b[p] == StaticObstacle <==> p in statics)
      && (b[p] == DynamicObstacle <==> p in dynamics)
      && (b[p] == FastDynamicObstacle <==> p in fasts)
      && (b[p] == Item <==> p in items)
      && (b[p] == Robot <==> p in robots)
  }

  /** Placing one more kind, on free cells, keeps the agreement with the lists placed so far. */
  lemma PlaceAgrees(b: Board, draws: seq<Pos>, i: nat, count: nat, tag: Cell,
                    robots: seq<Pos>, statics: seq<Pos>, dynamics: seq<Pos>, fasts: seq<Pos>, items: seq<Pos>)
    requires i <= |draws| && tag != FreeSpace && PlaceMany(b, draws, i, count, tag).Some?
    requires Agrees(b, robots, statics, dynamics, fasts, items)
    requires forall p :: p in b ==> b[p] != tag
    ensures var r := PlaceMany(b, draws, i, count, tag).value;
            Agrees(r.board,
                   if tag == Robot then r.cells else robots,
                   if tag == StaticObstacle then r.cells else statics,
                   if tag == DynamicObstacle then r.cells else dynamics,
                   if tag == FastDynamicObstacle then r.cells else fasts,
                   if tag == Item then r.cells else items)
  {
    PlaceManyEffect(b, draws, i, count, tag);
  }

  /**
   * What `initialize_grid` returns: a rows x cols grid, lists of exactly the requested
   * lengths without repeats, every cell tagged with the kind of the one list it is in (so
   * the lists are pairwise disjoint and the robot's cell is in none of them), every other
   * cell free, and every listed cell on the grid.
   */
  lemma InitLayoutFacts(rows: int, cols: int, staticCount: nat, dynamicCount: nat, itemCount: nat,
                        fastCount: nat, draws: seq<Pos>)
    requires InitLayout(rows, cols, staticCount, dynamicCount, itemCount, fastCount, draws).Some?
    ensures var w := InitLayout(rows, cols, staticCount, dynamicCount, itemCount, fastCount, draws).value;
            && (forall p :: p in w.board <==> 0 <= p.row < rows && 0 <= p.col < cols)
            && |w.statics| == staticCount && |w.dynamics| == dynamicCount
            && |w.fasts| == fastCount && |w.items| == itemCount
            && Obstacles.Distinct(w.statics) && Obstacles.Distinct(w.dynamics)
            && Obstacles.Distinct(w.fasts) && Obstacles.Distinct(w.items)
            && Agrees(w.board, [w.robot], w.statics, w.dynamics, w.fasts, w.items)
            && (forall p :: p in w.statics || p in w.dynamics || p in w.fasts || p in w.items ==> p in w.board)
  {
    var b0 := EmptyBoard(rows, cols);
    var s := PlaceMany(b0, draws, 0, staticCount, StaticObstacle).value;
    PlaceManyEffect(b0, draws, 0, staticCount, StaticObstacle);
    PlaceAgrees(b0, draws, 0, staticCount, StaticObstacle, [], [], [], [], []);
    var d := PlaceMany(s.board, draws, s.next, dynamicCount, DynamicObstacle).value;
    PlaceManyEffect(s.board, draws, s.next, dynamicCount, DynamicObstacle);
    PlaceAgrees(s.board, draws, s.next, dynamicCount, DynamicObstacle, [], s.cells, [], [], []);
    var f := PlaceMany(d.board, draws, d.next, fastCount, FastDynamicObstacle).value;
    PlaceManyEffect(d.board, draws, d.next, fastCount, FastDynamicObstacle);
    PlaceAgrees(d.board, draws, d.next, fastCount, FastDynamicObstacle, [], s.cells, d.cells, [], []);
    var it := PlaceMany(f.board, draws, f.next, itemCount, Item).value;
    PlaceManyEffect(f.board, draws, f.next, itemCount, Item);
    PlaceAgrees(f.board, draws, f.next, itemCount, Item, [], s.cells, d.cells, f.cells, []);
    var r := PlaceMany(it.board, draws, it.next, 1, Robot).value;
    PlaceManyEffect(it.board, draws, it.next, 1, Robot);
    PlaceAgrees(it.board, draws, it.next, 1, Robot, [], s.cells, d.cells, f.cells, it.cells);
    assert r.cells == [r.cells[0]];
  }

  /** The robot's cell was free when the robot was placed: it held none of the other kinds' tags. */
  lemma RobotOnFreeCell(rows: int, cols: int, staticCount: nat, dynamicCount: nat, itemCount: nat,
                        fastCount: nat, draws: seq<Pos>)
    requires InitLayout(rows, cols, staticCount, dynamicCount, itemCount, fastCount, draws).Some?
    ensures var w := InitLayout(rows, cols, staticCount, dynamicCount, itemCount, fastCount, draws).value;
            && w.robot in w.board && w.board[w.robot] == Robot
            && w.robot !in w.statics && w.robot !in w.dynamics && w.robot !in w.fasts && w.robot !in w.items
  {
    InitLayoutFacts(rows, cols, staticCount, dynamicCount, itemCount, fastCount, draws);
    var w := InitLayout(rows, cols, staticCount, dynamicCount, itemCount, fastCount, draws).value;
    assert w.robot in [w.robot];
  }

  /** `[prefix] + r`: the placements so far followed by those still to come. */
  function After(placed: seq<Pos>, r: Option<Placed>): Option<Placed>
  {
    if r.None? then None else Some(Placed(r.value.board, placed + r.value.cells, r.value.next))
  }

  /** Placing nothing in front of a placement changes nothing. */
  lemma AfterNothing(r: Option<Placed>)
    ensures After([], r) == r
  {
    if r.Some? {
      assert [] + r.value.cells == r.value.cells;
    }
  }

  /** The `while True` loop of one placement: reads candidates from i on until one lies on a free cell. */
  method DrawFree(grid: array2<Cell>, ghost b: Board, draws: seq<Pos>, i: nat) returns (j: nat)
    requires b == Snapshot(grid) && i <= |draws|
    requires forall k :: 0 <= k < |draws| ==> InGrid(grid, draws[k])
    ensures j == NextFree(b, draws, i)
  {
    j := i;
    while j < |draws| && grid[draws[j].row, draws[j].col] != FreeSpace
      invariant i <= j <= |draws|
      invariant NextFree(b, draws, j) == NextFree(b, draws, i)
    {
      SnapshotAt(grid, draws[j]);
      j := j + 1;
    }
    if j < |draws| {
      SnapshotAt(grid, draws[j]);
    }
  }

  /** The placement from `start` is the cells placed so far followed by the placement still to come. */
  ghost predicate PlacedSoFar(b0: Board, draws: seq<Pos>, start: nat, count: nat, tag: Cell,
                              placed: seq<Pos>, b: Board, i: nat, left: nat)
    requires start <= |draws| && i <= |draws|
  {
    PlaceMany(b0, draws, start, count, tag) == After(placed, PlaceMany(b, draws, i, left, tag))
  }

  /** Before the first round nothing is placed and the whole placement is still to come. */
  lemma PlacedNothing(b0: Board, draws: seq<Pos>, start: nat, count: nat, tag: Cell)
    requires start <= |draws|
    ensures PlacedSoFar(b0, draws, start, count, tag, [], b0, start, count)
  {
    AfterNothing(PlaceMany(b0, draws, start, count, tag));
  }

  /** Once nothing is left to place, the cells placed so far are the whole placement. */
  lemma PlacedEverything(b0: Board, draws: seq<Pos>, start: nat, count: nat, tag: Cell,
                         placed: seq<Pos>, b: Board, i: nat)
    requires start <= |draws| && i <= |draws|
    requires PlacedSoFar(b0, draws, start, count, tag, placed, b, i, 0)
    ensures PlaceMany(b0, draws, start, count, tag) == Some(Placed(b, placed, i))
  {
    assert placed + [] == placed;
  }

  /** Placing on the first free candidate moves one more cell into the prefix. */
  lemma PlaceFirst(b0: Board, draws: seq<Pos>, start: nat, count: nat, tag: Cell,
                   placed: seq<Pos>, b: Board, i: nat, left: nat, j: nat)
    requires start <= |draws| && i <= j < |draws| && NextFree(b, draws, i) == j && left > 0
    requires PlacedSoFar(b0, draws, start, count, tag, placed, b, i, left)
    ensures PlacedSoFar(b0, draws, start, count, tag, placed + [draws[j]], b[draws[j] := tag], j + 1, left - 1)
  {
    var rest := PlaceMany(b[draws[j] := tag], draws, j + 1, left - 1, tag);
    if rest.Some? {
      assert placed + ([draws[j]] + rest.value.cells) == (placed + [draws[j]]) + rest.value.cells;
    }
  }

  /**
   * One round of a placement loop: draw candidates from index i on until one lies on a free
   * cell, and tag it. Returns the index of that candidate, or |draws| when none is left.
   */
  method PlaceNext(grid: array2<Cell>, draws: seq<Pos>, ghost b0: Board, ghost start: nat, ghost count: nat,
                   tag: Cell, ghost placed: seq<Pos>, i: nat, ghost left: nat)
    returns (j: nat)
    requires start <= i <= |draws| && left > 0
    requires forall k :: 0 <= k < |draws| ==> InGrid(grid, draws[k])
    requires PlacedSoFar(b0, draws, start, count, tag, placed, Snapshot(grid), i, left)
    modifies grid
    ensures i <= j <= |draws|
    ensures j == |draws| ==> PlaceMany(b0, draws, start, count, tag).None?
    ensures j < |draws| ==> PlacedSoFar(b0, draws, start, count, tag, placed + [draws[j]], Snapshot(grid), j + 1, left - 1)
  {
    ghost var b := Snapshot(grid);
    j := DrawFree(grid, b, draws, i);
    if j < |draws| {
      PlaceFirst(b0, draws, start, count, tag, placed, b, i, left, j);
      Put(grid, b, draws[j], tag);
    }
  }

  /**
   * One placement loop: `count` times, draw candidates from index `start` on until one lies on
   * a free cell, and tag it.
   */
  method PlaceAll(grid: array2<Cell>, draws: seq<Pos>, start: nat, count: nat, tag: Cell)
    returns (ok: bool, placed: seq<Pos>, next: nat)
    requires start <= |draws|
    requires forall k :: 0 <= k < |draws| ==> InGrid(grid, draws[k])
    modifies grid
    ensures var r := PlaceMany(old(Snapshot(grid)), draws, start, count, tag);
            (ok <==> r.Some?) && (ok ==> r.value == Placed(Snapshot(grid), placed, next))
  {
    ghost var b0 := Snapshot(grid);
    var i, n := start, 0;
    ghost var left := count;
    placed := [];
    PlacedNothing(b0, draws, start, count, tag);
    while n < count
      invariant start <= i <= |draws| && n <= count
      invariant left == count - n
      invariant var onTrack := PlacedSoFar(b0, draws, start, count, tag, placed, Snapshot(grid), i, left); onTrack
    {
      var j := PlaceNext(grid, draws, b0, start, count, tag, placed, i, left);
      if j == |draws| {
        return false, placed, j;
      }
      placed := placed + [draws[j]];
      i, n, left := j + 1, n + 1, left - 1;
    }
    PlacedEverything(b0, draws, start, count, tag, placed, Snapshot(grid), i);
    return true, placed, i;
  }

  /**
   * `initialize_grid`: a fresh rows x cols grid of free cells, on which static obstacles,
   * plain and fast dynamic obstacles, items and the robot are placed in that order, and a
   * fresh flag list with every flag set. `ok` is false when the candidates ran out.
   */
  method InitializeGrid(rows: nat, cols: nat, staticCount: nat, dynamicCount: nat, itemCount: nat,
                        fastDynamicCount: nat, draws: seq<Pos>)
    returns (ok: bool, grid: array2<Cell>, robotPosition: Pos, staticPositions: seq<Pos>,
             dynamicPositions: seq<Pos>, fastDynamicPositions: seq<Pos>, itemPositions: seq<Pos>,
             fastObstacleStates: array<bool>)
    requires forall k :: 0 <= k < |draws| ==> 0 <= draws[k].row < rows && 0 <= draws[k].col < cols
    ensures fresh(grid) && fresh(fastObstacleStates)
    ensures grid.Length0 == rows && grid.Length1 == cols
    ensures fastObstacleStates.Length == fastDynamicCount
    ensures forall k :: 0 <= k < fastDynamicCount ==> fastObstacleStates[k]
    ensures var w := InitLayout(rows, cols, staticCount, dynamicCount, itemCount, fastDynamicCount, draws);
            && (ok <==> w.Some?)
            && (ok ==> w.value == Layout(Snapshot(grid), robotPosition, staticPositions, dynamicPositions,
                                         fastDynamicPositions, itemPositions))
  {
    robotPosition, dynamicPositions, fastDynamicPositions, itemPositions := Pos(0, 0), [], [], [];
    grid := new Cell[rows, cols]((_, _) => FreeSpace);
    BoardExtensionality(Snapshot(grid), EmptyBoard(rows, cols));
    var next: nat, robots: seq<Pos>;
    ok, staticPositions, next := PlaceAll(grid, draws, 0, staticCount, StaticObstacle);
    if ok {
      ok, dynamicPositions, next := PlaceAll(grid, draws, next, dynamicCount, DynamicObstacle);
      if ok {
        ok, fastDynamicPositions, next := PlaceAll(grid, draws, next, fastDynamicCount, FastDynamicObstacle);
        if ok {
          ok, itemPositions, next := PlaceAll(grid, draws, next, itemCount, Item);
          if ok {
            ok, robots, next := PlaceAll(grid, draws, next, 1, Robot);
            if ok {
              robotPosition := robots[0];
            }
          }
        }
      }
    }
    fastObstacleStates := new bool[fastDynamicCount](_ => true);
  }
}
