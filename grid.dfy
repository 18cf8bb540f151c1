/** Cells, positions, the Manhattan heuristic and the value view of the warehouse grid. */
module Grid {

  /** The tag one grid cell holds. The program spells them '*', 'S', 'D1', 'D2', 'R' and 'I'. */
  datatype Cell = FreeSpace | StaticObstacle | DynamicObstacle | FastDynamicObstacle | Robot | Item

  /** A (row, column) pair; the program unpacks it as (x, y). */
  datatype Pos = Pos(row: int, col: int)

  /** The grid as a value: every in-bounds position mapped to the tag it holds. */
  type Board = map<Pos, Cell>

  datatype Option<T> = None | Some(value: T)

  predicate InGrid(grid: array2<Cell>, p: Pos)
  {
    0 <= p.row < grid.Length0 && 0 <= p.col < grid.Length1
  }

  /** The positions of a rows x cols grid. */
  ghost function Cells(rows: int, cols: int): (s: set<Pos>)
    ensures forall p :: p in s <==> 0 <= p.row < rows && 0 <= p.col < cols
  {
    set r, c | 0 <= r < rows && 0 <= c < cols :: Pos(r, c)
  }

  /** The value held by the mutable grid: exactly its in-bounds cells, each with its tag. */
  ghost function Snapshot(grid: array2<Cell>): Board
    reads grid
  {
    map p | p in Cells(grid.Length0, grid.Length1) :: grid[p.row, p.col]
  }

  /** Reading the value view at p is reading the grid at p; positions out of bounds are not in it. */
  lemma SnapshotAt(grid: array2<Cell>, p: Pos)
    ensures p in Snapshot(grid) <==> InGrid(grid, p)
    ensures InGrid(grid, p) ==> Snapshot(grid)[p] == grid[p.row, p.col]
  {
  }

  function Abs(n: int): nat
  {
    if n < 0 then -n else n
  }

  /** Manhattan distance between two cells. */
  function Heuristic(a: Pos, b: Pos): (d: nat)
    ensures d == 0 <==> a == b
  {
    Abs(a.row - b.row) + Abs(a.col - b.col)
  }

  lemma HeuristicSymmetric(a: Pos, b: Pos)
    ensures Heuristic(a, b) == Heuristic(b, a)
  {
  }

  /** The Manhattan distance obeys the triangle inequality, so the heuristic is consistent. */
  lemma HeuristicTriangle(a: Pos, b: Pos, c: Pos)
    ensures Heuristic(a, c) <= Heuristic(a, b) + Heuristic(b, c)
  {
  }

  /** Two cells one cardinal step apart. */
  predicate Adjacent(a: Pos, b: Pos)
  {
    Heuristic(a, b) == 1
  }

  /** The four cardinal moves, in the order the program lists them: up, down, left, right. */
  const Directions: seq<(int, int)> := [(-1, 0), (1, 0), (0, -1), (0, 1)]

  function Shift(p: Pos, d: (int, int)): Pos
  {
    Pos(p.row + d.0, p.col + d.1)
  }

  /** An order of the four directions, as a shuffle of the direction list produces. */
  predicate IsShuffle(order: seq<(int, int)>)
  {
    && |order| == 4
    && (forall k :: 0 <= k < 4 ==> Directions[k] in order)
    && (forall k :: 0 <= k < 4 ==> order[k] in Directions)
  }

  predicate IsFree(b: Board, p: Pos)
  {
    p in b && b[p] == FreeSpace
  }

  /** Every direction of a shuffle is one of the four cardinal moves, so a shift is one step. */
  lemma ShuffleStepsAreAdjacent(order: seq<(int, int)>, k: nat, p: Pos)
    requires IsShuffle(order) && k < |order|
    ensures Adjacent(p, Shift(p, order[k]))
  {
    assert order[k] in Directions;
  }

  /** A cell is adjacent to p exactly when it is p shifted by one of the four directions. */
  lemma AdjacentIsShift(p: Pos, q: Pos)
    requires Adjacent(p, q)
    ensures exists k :: 0 <= k < 4 && q == Shift(p, Directions[k])
  {
    if q.row == p.row - 1 {
      assert q == Shift(p, Directions[0]);
    } else if q.row == p.row + 1 {
      assert q == Shift(p, Directions[1]);
    } else if q.col == p.col - 1 {
      assert q == Shift(p, Directions[2]);
    } else {
      assert q == Shift(p, Directions[3]);
    }
  }

  /** The cells of the board holding a given tag. */
  function CellsWith(b: Board, t: Cell): (s: set<Pos>)
    ensures forall p :: p in s <==> p in b && b[p] == t
  {
    set p | p in b && b[p] == t
  }

  /** Number of cells of the board holding a given tag. */
  function Count(b: Board, t: Cell): nat
  {
    |CellsWith(b, t)|
  }

  /** Two boards with the same cells and the same tag on every cell are equal. */
  lemma BoardExtensionality(b1: Board, b2: Board)
    requires forall p :: p in b1 <==> p in b2
    requires forall p :: p in b1 ==> b1[p] == b2[p]
    ensures b1 == b2
  {
  }

  /** Tags one in-bounds cell of the grid. */
  method Put(grid: array2<Cell>, ghost b: Board, p: Pos, tag: Cell)
    requires b == Snapshot(grid) && InGrid(grid, p)
    modifies grid
    ensures Snapshot(grid) == b[p := tag]
  {
    grid[p.row, p.col] := tag;
    BoardExtensionality(Snapshot(grid), b[p := tag]);
  }
}
