/**
 * The obstacle tick of the warehouse simulation: `move_obstacle` moves one obstacle at most
 * one cardinal step onto a free cell, and `move_dynamic_obstacles` moves every plain dynamic
 * obstacle and every active fast obstacle, in list order, toggling the fast obstacles' flags.
 *
 * The shuffled direction order that `move_obstacle` draws is a parameter (`IsShuffle`).
 * The value functions `MoveOne`, `Sweep` and `Tick` specify the methods; the
 * lemmas state what a tick does to the board.
 */
module Obstacles {
  import opened Grid

  /** Index of the first direction of `order` leading from p to a free cell, or |order| if none. */
  function FirstFree(b: Board, p: Pos, order: seq<(int, int)>): (k: nat)
    ensures k <= |order|
    ensures k < |order| ==> IsFree(b, Shift(p, order[k]))
    ensures forall j :: 0 <= j < k ==> !IsFree(b, Shift(p, order[j]))
  {
    if order == [] then 0
    else if IsFree(b, Shift(p, order[0])) then 0
    else 1 + FirstFree(b, p, order[1..])
  }

  /** FirstFree is the index of the first free target when there is one, and |order| otherwise. */
  lemma {:induction false} FirstFreeAt(b: Board, p: Pos, order: seq<(int, int)>, k: nat)
    requires k <= |order|
    requires k < |order| ==> IsFree(b, Shift(p, order[k]))
    requires forall j :: 0 <= j < k ==> !IsFree(b, Shift(p, order[j]))
    ensures FirstFree(b, p, order) == k
  {
    if order != [] && !IsFree(b, Shift(p, order[0])) {
      FirstFreeAt(b, p, order[1..], k - 1);
    }
  }

  /**
   * One obstacle move on the value board: the obstacle tagged `tag` at p goes to the first
   * free neighbour in the drawn order, clearing p; with no free neighbour nothing changes.
   * Returns the new board and the obstacle's new position.
   */
  function MoveOne(b: Board, p: Pos, order: seq<(int, int)>, tag: Cell): (Board, Pos)
  {
    var k := FirstFree(b, p, order);
    if k < |order| then (b[p := FreeSpace][Shift(p, order[k]) := tag], Shift(p, order[k])) else (b, p)
  }

  /**
   * One obstacle move either leaves board and position alone, or takes exactly one cardinal
   * step onto a cell that was free, clearing the old cell and tagging the new one, and
   * changes nothing else. It stays put exactly when none of its four neighbours is free.
   */
  lemma MoveObstacleEffect(b: Board, p: Pos, order: seq<(int, int)>, tag: Cell)
    requires p in b && IsShuffle(order)
    ensures var (b', q) := MoveOne(b, p, order, tag);
            || (q == p && b' == b)
            || (&& Adjacent(p, q) && IsFree(b, q)
                && b'.Keys == b.Keys && b'[p] == FreeSpace && b'[q] == tag
                && forall r :: r in b && r != p && r != q ==> b'[r] == b[r])
    ensures MoveOne(b, p, order, tag).1 == p <==> forall k :: 0 <= k < 4 ==> !IsFree(b, Shift(p, Directions[k]))
  {
    var k := FirstFree(b, p, order);
    if k < |order| {
      ShuffleStepsAreAdjacent(order, k, p);
    } else {
      forall j | 0 <= j < 4
        ensures !IsFree(b, Shift(p, Directions[j]))
      {
        assert Directions[j] in order;
      }
    }
  }

  /**
   * Moves the obstacles at ps one after another, in list order; each move sees the board left
   * by the moves before it. An inactive obstacle stays where it is without looking at the board.
   * Returns the final board and the new positions, index-aligned with ps.
   */
  function Sweep(b: Board, ps: seq<Pos>, active: seq<bool>, orders: seq<seq<(int, int)>>, tag: Cell)
    : (r: (Board, seq<Pos>))
    requires |active| == |ps| && |orders| == |ps|
    ensures |r.1| == |ps|
    ensures (forall i :: 0 <= i < |ps| ==> ps[i] in b) ==>
              r.0.Keys == b.Keys && forall i :: 0 <= i < |ps| ==> r.1[i] in b
    decreases |ps|
  {
    if ps == [] then (b, [])
    else
      var n := |ps| - 1;
      var prev := Sweep(b, ps[..n], active[..n], orders[..n], tag);
      var (b', q) := if active[n] then MoveOne(prev.0, ps[n], orders[n], tag) else (prev.0, ps[n]);
      (b', prev.1 + [q])
  }

  function AllActive(n: nat): (s: seq<bool>)
    ensures |s| == n && forall i :: 0 <= i < n ==> s[i]
  {
    seq(n, _ => true)
  }

  /**
   * The whole tick: every plain dynamic obstacle moves, then every fast obstacle whose flag is
   * set moves. Returns the board and the new dynamic and fast position lists.
   */
  function Tick(b: Board, dynamicPositions: seq<Pos>, fastPositions: seq<Pos>, fastStates: seq<bool>,
                dynamicOrders: seq<seq<(int, int)>>, fastOrders: seq<seq<(int, int)>>)
    : (r: (Board, seq<Pos>, seq<Pos>))
    requires |dynamicOrders| == |dynamicPositions|
    requires |fastStates| == |fastPositions| && |fastOrders| == |fastPositions|
  {
    var (b1, newDynamic) := Sweep(b, dynamicPositions, AllActive(|dynamicPositions|), dynamicOrders, DynamicObstacle);
    var (b2, newFast) := Sweep(b1, fastPositions, fastStates, fastOrders, FastDynamicObstacle);
    (b2, newDynamic, newFast)
  }

  predicate Distinct(s: seq<Pos>)
  {
    forall i, j :: 0 <= i < j < |s| ==> s[i] != s[j]
  }

  predicate WellFormedSweep(b: Board, ps: seq<Pos>, active: seq<bool>, orders: seq<seq<(int, int)>>)
  {
    && |active| == |ps| && |orders| == |ps|
    && (forall i :: 0 <= i < |ps| ==> ps[i] in b)
    && (forall i :: 0 <= i < |orders| ==> IsShuffle(orders[i]))
  }

  lemma PrefixWellFormed(b: Board, ps: seq<Pos>, active: seq<bool>, orders: seq<seq<(int, int)>>, n: nat)
    requires WellFormedSweep(b, ps, active, orders) && n <= |ps|
    ensures WellFormedSweep(b, ps[..n], active[..n], orders[..n])
  {
  }

  /**
   * A sweep keeps the set of cells, returns one position per obstacle in the same order, and
   * each obstacle either stays or ends one cardinal step away; an inactive one stays.
   */
  lemma {:induction false} SweepShape(b: Board, ps: seq<Pos>, active: seq<bool>, orders: seq<seq<(int, int)>>, tag: Cell)
    requires WellFormedSweep(b, ps, active, orders)
    ensures var r := Sweep(b, ps, active, orders, tag);
            && r.0.Keys == b.Keys
            && forall i :: 0 <= i < |ps| ==>
                 && r.1[i] in b
                 && (r.1[i] == ps[i] || Adjacent(ps[i], r.1[i]))
                 && (!active[i] ==> r.1[i] == ps[i])
    decreases |ps|
  {
    if ps != [] {
      var n := |ps| - 1;
      PrefixWellFormed(b, ps, active, orders, n);
      SweepShape(b, ps[..n], active[..n], orders[..n], tag);
      var prev := Sweep(b, ps[..n], active[..n], orders[..n], tag);
      if active[n] {
        MoveObstacleEffect(prev.0, ps[n], orders[n], tag);
      }
    }
  }

  /**
   * Obstacles only land on free cells: an obstacle that moved went onto a cell that was free
   * on the board left by the obstacles before it in the list.
   */
  lemma {:induction false} SweepLandsOnFree(b: Board, ps: seq<Pos>, active: seq<bool>, orders: seq<seq<(int, int)>>,
                                            tag: Cell, i: nat)
    requires WellFormedSweep(b, ps, active, orders) && i < |ps|
    ensures var q := Sweep(b, ps, active, orders, tag).1[i];
            q != ps[i] ==> IsFree(Sweep(b, ps[..i], active[..i], orders[..i], tag).0, q)
    decreases |ps|
  {
    var n := |ps| - 1;
    PrefixWellFormed(b, ps, active, orders, n);
    if i < n {
      SweepLandsOnFree(b, ps[..n], active[..n], orders[..n], tag, i);
      assert ps[..n][..i] == ps[..i] && active[..n][..i] == active[..i] && orders[..n][..i] == orders[..i];
    } else {
      assert ps[..n] == ps[..i] && active[..n] == active[..i] && orders[..n] == orders[..i];
    }
  }

  /**
   * Nothing else changes: a cell holding neither an obstacle of the list before the sweep
   * nor one after it keeps its tag, and an occupied cell that no listed obstacle stood on is
   * never entered.
   */
  lemma {:induction false} SweepFrame(b: Board, ps: seq<Pos>, active: seq<bool>, orders: seq<seq<(int, int)>>, tag: Cell)
    requires WellFormedSweep(b, ps, active, orders)
    ensures var r := Sweep(b, ps, active, orders, tag);
            && (forall c :: c in b && c !in ps && c !in r.1 ==> r.0[c] == b[c])
            && (forall c :: c in b && c !in ps && b[c] != FreeSpace ==> r.0[c] == b[c])
            && (forall i :: 0 <= i < |ps| ==> r.1[i] in ps || IsFree(b, r.1[i]))
    decreases |ps|
  {
    if ps != [] {
      var n := |ps| - 1;
      PrefixWellFormed(b, ps, active, orders, n);
      SweepFrame(b, ps[..n], active[..n], orders[..n], tag);
      SweepShape(b, ps[..n], active[..n], orders[..n], tag);
      var prev := Sweep(b, ps[..n], active[..n], orders[..n], tag);
      if active[n] {
        MoveObstacleEffect(prev.0, ps[n], orders[n], tag);
      }
      var r := Sweep(b, ps, active, orders, tag);
      assert r.1 == prev.1 + [r.1[n]];
      forall c | c in b && c !in ps && c !in r.1
        ensures r.0[c] == b[c]
      {
        assert c !in ps[..n];
        assert c !in prev.1;
      }
      forall i | 0 <= i < |ps|
        ensures r.1[i] in ps || IsFree(b, r.1[i])
      {
        if i < n {
          assert r.1[i] == prev.1[i];
        } else if r.1[i] != ps[i] {
          var q := r.1[i];
          assert q !in ps[..n] && !IsFree(b, q) ==> prev.0[q] == b[q];
        }
      }
    }
  }

  /** Moving an obstacle from its own tagged cell onto a free cell keeps every tag count. */
  lemma MoveCounts(b: Board, p: Pos, q: Pos, tag: Cell, t: Cell)
    requires p in b && b[p] == tag && tag != FreeSpace && IsFree(b, q)
    ensures Count(b[p := FreeSpace][q := tag], t) == Count(b, t)
  {
    var b' := b[p := FreeSpace][q := tag];
    var before, after := CellsWith(b, t), CellsWith(b', t);
    if t == tag {
      SwapOne(before, after, p, q);
    } else if t == FreeSpace {
      SwapOne(before, after, q, p);
    } else {
      assert after == before;
    }
  }

  /** Trading one member of a set for an outsider keeps its size. */
  lemma SwapOne(before: set<Pos>, after: set<Pos>, x: Pos, y: Pos)
    requires x in before && y !in before
    requires forall c :: c in after <==> (c in before && c != x) || c == y
    ensures |after| == |before|
  {
    var mid := before - {x};
    assert |mid| == |before| - 1;
    assert after == mid + {y};
  }

  /**
   * The last obstacle of a sweep either stays, leaving the board of the earlier moves alone,
   * or takes one cardinal step onto a cell free on that board, clearing its old cell.
   */
  lemma SweepLast(b: Board, ps: seq<Pos>, active: seq<bool>, orders: seq<seq<(int, int)>>, tag: Cell)
    requires WellFormedSweep(b, ps, active, orders) && ps != []
    ensures var n := |ps| - 1;
            var prev := Sweep(b, ps[..n], active[..n], orders[..n], tag);
            var r := Sweep(b, ps, active, orders, tag);
            && r.1 == prev.1 + [r.1[n]]
            && (|| (r.1[n] == ps[n] && r.0 == prev.0)
                || (&& active[n] && Adjacent(ps[n], r.1[n]) && IsFree(prev.0, r.1[n])
                    && r.0 == prev.0[ps[n] := FreeSpace][r.1[n] := tag]))
  {
    var n := |ps| - 1;
    var prev := Sweep(b, ps[..n], active[..n], orders[..n], tag);
    PrefixWellFormed(b, ps, active, orders, n);
    if active[n] {
      MoveObstacleEffect(prev.0, ps[n], orders[n], tag);
      var k := FirstFree(prev.0, ps[n], orders[n]);
      if k < |orders[n]| {
        ShuffleStepsAreAdjacent(orders[n], k, ps[n]);
      }
    }
  }

  /**
   * When the listed obstacles stand on distinct cells that each hold their tag, a sweep keeps
   * that agreement for the new positions.
   */
  lemma {:induction false} SweepKeepsAgreement(b: Board, ps: seq<Pos>, active: seq<bool>, orders: seq<seq<(int, int)>>,
                                               tag: Cell)
    requires WellFormedSweep(b, ps, active, orders) && tag != FreeSpace
    requires Distinct(ps) && forall i :: 0 <= i < |ps| ==> b[ps[i]] == tag
    ensures var r := Sweep(b, ps, active, orders, tag);
            && Distinct(r.1)
            && (forall i :: 0 <= i < |ps| ==> r.0[r.1[i]] == tag)
    decreases |ps|
  {
    if ps != [] {
      var n := |ps| - 1;
      PrefixWellFormed(b, ps, active, orders, n);
      SweepKeepsAgreement(b, ps[..n], active[..n], orders[..n], tag);
      SweepFrame(b, ps[..n], active[..n], orders[..n], tag);
      SweepLast(b, ps, active, orders, tag);
      var prev := Sweep(b, ps[..n], active[..n], orders[..n], tag);
      var r := Sweep(b, ps, active, orders, tag);
      var q := r.1[n];
      assert ps[n] !in ps[..n];
      assert prev.0[ps[n]] == tag;
      forall i | 0 <= i < n
        ensures prev.1[i] != q
      {
        if q == ps[n] {
          assert prev.1[i] in ps[..n] || IsFree(b, prev.1[i]);
        } else {
          assert IsFree(prev.0, q);
        }
      }
    }
  }

  /** Under the same agreement, a sweep keeps the number of cells of every tag. */
  lemma {:induction false} SweepKeepsCounts(b: Board, ps: seq<Pos>, active: seq<bool>, orders: seq<seq<(int, int)>>,
                                            tag: Cell)
    requires WellFormedSweep(b, ps, active, orders) && tag != FreeSpace
    requires Distinct(ps) && forall i :: 0 <= i < |ps| ==> b[ps[i]] == tag
    ensures forall t :: Count(Sweep(b, ps, active, orders, tag).0, t) == Count(b, t)
    decreases |ps|
  {
    if ps != [] {
      var n := |ps| - 1;
      PrefixWellFormed(b, ps, active, orders, n);
      SweepKeepsCounts(b, ps[..n], active[..n], orders[..n], tag);
      SweepKeepsAgreement(b, ps[..n], active[..n], orders[..n], tag);
      SweepFrame(b, ps[..n], active[..n], orders[..n], tag);
      SweepLast(b, ps, active, orders, tag);
      var prev := Sweep(b, ps[..n], active[..n], orders[..n], tag);
      var r := Sweep(b, ps, active, orders, tag);
      var q := r.1[n];
      assert ps[n] !in ps[..n];
      assert prev.0[ps[n]] == tag;
      forall t
        ensures Count(r.0, t) == Count(b, t)
      {
        if q != ps[n] {
          MoveCounts(prev.0, ps[n], q, tag, t);
        }
      }
    }
  }

  predicate TickWellFormed(b: Board, dynamicPositions: seq<Pos>, fastPositions: seq<Pos>, fastStates: seq<bool>,
                           dynamicOrders: seq<seq<(int, int)>>, fastOrders: seq<seq<(int, int)>>)
  {
    && WellFormedSweep(b, dynamicPositions, AllActive(|dynamicPositions|), dynamicOrders)
    && WellFormedSweep(b, fastPositions, fastStates, fastOrders)
  }

  /**
   * What a tick does, whatever the board: the cells stay the same, both lists keep their
   * length and order, every obstacle stays or takes one cardinal step, a fast obstacle whose
   * flag is off stays, every new position was a listed obstacle's cell or a free cell, and an
   * occupied cell that no obstacle stood on keeps its tag.
   */
  lemma TickFrame(b: Board, dynamicPositions: seq<Pos>, fastPositions: seq<Pos>, fastStates: seq<bool>,
                  dynamicOrders: seq<seq<(int, int)>>, fastOrders: seq<seq<(int, int)>>)
    requires TickWellFormed(b, dynamicPositions, fastPositions, fastStates, dynamicOrders, fastOrders)
    ensures var r := Tick(b, dynamicPositions, fastPositions, fastStates, dynamicOrders, fastOrders);
            && r.0.Keys == b.Keys
            && |r.1| == |dynamicPositions| && |r.2| == |fastPositions|
            && (forall i :: 0 <= i < |dynamicPositions| ==>
                  && r.1[i] in b
                  && (r.1[i] == dynamicPositions[i] || Adjacent(dynamicPositions[i], r.1[i]))
                  && (r.1[i] in dynamicPositions || IsFree(b, r.1[i])))
            && (forall i :: 0 <= i < |fastPositions| ==>
                  && r.2[i] in b
                  && (r.2[i] == fastPositions[i] || Adjacent(fastPositions[i], r.2[i]))
                  && (!fastStates[i] ==> r.2[i] == fastPositions[i])
                  && (r.2[i] in fastPositions || r.2[i] in dynamicPositions || IsFree(b, r.2[i])))
            && (forall c :: c in b && c !in dynamicPositions && c !in fastPositions && b[c] != FreeSpace ==>
                  r.0[c] == b[c])
  {
    var active := AllActive(|dynamicPositions|);
    SweepShape(b, dynamicPositions, active, dynamicOrders, DynamicObstacle);
    SweepFrame(b, dynamicPositions, active, dynamicOrders, DynamicObstacle);
    var (b1, newDynamic) := Sweep(b, dynamicPositions, active, dynamicOrders, DynamicObstacle);
    SweepShape(b1, fastPositions, fastStates, fastOrders, FastDynamicObstacle);
    SweepFrame(b1, fastPositions, fastStates, fastOrders, FastDynamicObstacle);
  }

  /**
   * The tick preserves grid/list agreement: when the obstacles stand on distinct cells, the
   * dynamic ones on 'D1' cells and the fast ones on 'D2' cells, the same holds of the new
   * positions, and every tag occupies as many cells as before.
   */
  lemma TickKeepsAgreement(b: Board, dynamicPositions: seq<Pos>, fastPositions: seq<Pos>, fastStates: seq<bool>,
                           dynamicOrders: seq<seq<(int, int)>>, fastOrders: seq<seq<(int, int)>>)
    requires TickWellFormed(b, dynamicPositions, fastPositions, fastStates, dynamicOrders, fastOrders)
    requires Distinct(dynamicPositions) && Distinct(fastPositions)
    requires forall i, j :: 0 <= i < |dynamicPositions| && 0 <= j < |fastPositions| ==>
               dynamicPositions[i] != fastPositions[j]
    requires forall i :: 0 <= i < |dynamicPositions| ==> b[dynamicPositions[i]] == DynamicObstacle
    requires forall i :: 0 <= i < |fastPositions| ==> b[fastPositions[i]] == FastDynamicObstacle
    ensures var r := Tick(b, dynamicPositions, fastPositions, fastStates, dynamicOrders, fastOrders);
            && r.0.Keys == b.Keys
            && Distinct(r.1) && Distinct(r.2)
            && (forall i, j :: 0 <= i < |r.1| && 0 <= j < |r.2| ==> r.1[i] != r.2[j])
            && (forall i :: 0 <= i < |r.1| ==> r.0[r.1[i]] == DynamicObstacle)
            && (forall i :: 0 <= i < |r.2| ==> r.0[r.2[i]] == FastDynamicObstacle)
            && (forall t :: Count(r.0, t) == Count(b, t))
  {
    var active := AllActive(|dynamicPositions|);
    SweepKeepsAgreement(b, dynamicPositions, active, dynamicOrders, DynamicObstacle);
    SweepKeepsCounts(b, dynamicPositions, active, dynamicOrders, DynamicObstacle);
    SweepFrame(b, dynamicPositions, active, dynamicOrders, DynamicObstacle);
    var (b1, newDynamic) := Sweep(b, dynamicPositions, active, dynamicOrders, DynamicObstacle);
    forall i | 0 <= i < |fastPositions|
      ensures b1[fastPositions[i]] == FastDynamicObstacle
    {
      assert fastPositions[i] !in dynamicPositions;
    }
    assert WellFormedSweep(b1, fastPositions, fastStates, fastOrders);
    SweepKeepsAgreement(b1, fastPositions, fastStates, fastOrders, FastDynamicObstacle);
    SweepKeepsCounts(b1, fastPositions, fastStates, fastOrders, FastDynamicObstacle);
    SweepFrame(b1, fastPositions, fastStates, fastOrders, FastDynamicObstacle);
    var (b2, newFast) := Sweep(b1, fastPositions, fastStates, fastOrders, FastDynamicObstacle);
    forall i | 0 <= i < |newDynamic|
      ensures newDynamic[i] !in fastPositions && b2[newDynamic[i]] == DynamicObstacle
    {
    }
    forall i, j | 0 <= i < |newDynamic| && 0 <= j < |newFast|
      ensures newDynamic[i] != newFast[j]
    {
      assert newFast[j] in fastPositions || IsFree(b1, newFast[j]);
    }
  }

  /**
   * `move_obstacle`: tries the four directions in the drawn order and moves the obstacle onto
   * the first in-bounds free neighbour, clearing its old cell; otherwise leaves everything.
   */
  method MoveObstacle(grid: array2<Cell>, position: Pos, obstacleType: Cell, directions: seq<(int, int)>)
    returns (r: Pos)
    requires InGrid(grid, position)
    modifies grid
    ensures (Snapshot(grid), r) == MoveOne(old(Snapshot(grid)), position, directions, obstacleType)
  {
    var rows, cols := grid.Length0, grid.Length1;
    var x, y := position.row, position.col;
    ghost var b := Snapshot(grid);
    for k := 0 to |directions|
      invariant unchanged(grid)
      invariant forall j :: 0 <= j < k ==> !IsFree(b, Shift(position, directions[j]))
    {
      var (dx, dy) := directions[k];
      var nx, ny := x + dx, y + dy;
      if 0 <= nx < rows && 0 <= ny < cols && grid[nx, ny] == FreeSpace {
        FirstFreeAt(b, position, directions, k);
        grid[x, y] := FreeSpace;
        grid[nx, ny] := obstacleType;
        BoardExtensionality(Snapshot(grid), b[position := FreeSpace][Pos(nx, ny) := obstacleType]);
        return Pos(nx, ny);
      }
    }
    FirstFreeAt(b, position, directions, |directions|);
    return position;
  }

  /** Sweeping one more obstacle: the sweep of a prefix of length i + 1 extends the sweep of length i. */
  lemma SweepStep(b: Board, ps: seq<Pos>, active: seq<bool>, orders: seq<seq<(int, int)>>, tag: Cell, i: nat)
    requires |active| == |ps| && |orders| == |ps| && i < |ps|
    ensures var prev := Sweep(b, ps[..i], active[..i], orders[..i], tag);
            var (b', q) := if active[i] then MoveOne(prev.0, ps[i], orders[i], tag) else (prev.0, ps[i]);
            Sweep(b, ps[..i + 1], active[..i + 1], orders[..i + 1], tag) == (b', prev.1 + [q])
  {
    assert ps[..i + 1][..i] == ps[..i];
    assert active[..i + 1][..i] == active[..i];
    assert orders[..i + 1][..i] == orders[..i];
  }

  /** Sweeping a whole list is sweeping its full-length prefix. */
  lemma SweepWhole(b: Board, ps: seq<Pos>, active: seq<bool>, orders: seq<seq<(int, int)>>, tag: Cell)
    requires |active| == |ps| && |orders| == |ps|
    ensures Sweep(b, ps[..|ps|], active[..|ps|], orders[..|ps|], tag) == Sweep(b, ps, active, orders, tag)
  {
    assert ps[..|ps|] == ps;
    assert active[..|ps|] == active;
    assert orders[..|ps|] == orders;
  }

  /** The loop over the plain dynamic obstacles: each one moves in turn. */
  method MoveEach(grid: array2<Cell>, positions: seq<Pos>, tag: Cell, orders: seq<seq<(int, int)>>)
    returns (moved: seq<Pos>)
    requires forall i :: 0 <= i < |positions| ==> InGrid(grid, positions[i])
    requires |orders| == |positions|
    modifies grid
    ensures (Snapshot(grid), moved) == Sweep(old(Snapshot(grid)), positions, AllActive(|positions|), orders, tag)
  {
    ghost var b0 := Snapshot(grid);
    ghost var active := AllActive(|positions|);
    moved := [];
    for i := 0 to |positions|
      invariant (Snapshot(grid), moved) == Sweep(b0, positions[..i], active[..i], orders[..i], tag)
    {
      SweepStep(b0, positions, active, orders, tag, i);
      var q := MoveObstacle(grid, positions[i], tag, orders[i]);
      moved := moved + [q];
    }
    SweepWhole(b0, positions, active, orders, tag);
  }

  /**
   * The loop over the fast obstacles: one whose flag is set moves and clears its flag, one
   * whose flag is clear stays and sets it.
   */
  method MoveFast(grid: array2<Cell>, positions: seq<Pos>, states: array<bool>, orders: seq<seq<(int, int)>>)
    returns (moved: seq<Pos>)
    requires forall i :: 0 <= i < |positions| ==> InGrid(grid, positions[i])
    requires |positions| <= states.Length
    requires |orders| == |positions|
    modifies grid, states
    ensures forall i :: 0 <= i < |positions| ==> states[i] == !old(states[i])
    ensures forall i :: |positions| <= i < states.Length ==> states[i] == old(states[i])
    ensures (Snapshot(grid), moved)
         == Sweep(old(Snapshot(grid)), positions, old(states[..])[..|positions|], orders, FastDynamicObstacle)
  {
    ghost var b0 := Snapshot(grid);
    ghost var flags := states[..][..|positions|];
    moved := [];
    for idx := 0 to |positions|
      invariant forall j :: 0 <= j < idx ==> states[j] == !flags[j]
      invariant forall j :: idx <= j < states.Length ==> states[j] == old(states[j])
      invariant (Snapshot(grid), moved) == Sweep(b0, positions[..idx], flags[..idx], orders[..idx], FastDynamicObstacle)
    {
      SweepStep(b0, positions, flags, orders, FastDynamicObstacle, idx);
      var newPosition;
      if states[idx] {
        newPosition := MoveObstacle(grid, positions[idx], FastDynamicObstacle, orders[idx]);
        states[idx] := false;
      } else {
        newPosition := positions[idx];
        states[idx] := true;
      }
      moved := moved + [newPosition];
    }
    SweepWhole(b0, positions, flags, orders, FastDynamicObstacle);
  }

  /**
   * `move_dynamic_obstacles`: moves every plain dynamic obstacle, then every fast obstacle whose
   * flag is set, and flips each fast obstacle's flag whether or not it moved. The flag list is
   * updated in place and returned; the collision count passes through unchanged, and the
   * robot's position is accepted but not used, as in the program.
   */
  method MoveDynamicObstacles(grid: array2<Cell>, dynamicPositions: seq<Pos>, fastDynamicPositions: seq<Pos>,
                              fastObstacleStates: array<bool>, robotPosition: Pos, collisionCount: nat,
                              dynamicOrders: seq<seq<(int, int)>>, fastOrders: seq<seq<(int, int)>>)
    returns (newDynamicPositions: seq<Pos>, newFastDynamicPositions: seq<Pos>, states: array<bool>, count: nat)
    requires forall i :: 0 <= i < |dynamicPositions| ==> InGrid(grid, dynamicPositions[i])
    requires forall i :: 0 <= i < |fastDynamicPositions| ==> InGrid(grid, fastDynamicPositions[i])
    requires |fastDynamicPositions| <= fastObstacleStates.Length
    requires |dynamicOrders| == |dynamicPositions| && |fastOrders| == |fastDynamicPositions|
    modifies grid, fastObstacleStates
    ensures states == fastObstacleStates && count == collisionCount
    ensures forall i :: 0 <= i < |fastDynamicPositions| ==> states[i] == !old(states[i])
    ensures forall i :: |fastDynamicPositions| <= i < states.Length ==> states[i] == old(states[i])
    ensures (Snapshot(grid), newDynamicPositions, newFastDynamicPositions)
         == Tick(old(Snapshot(grid)), dynamicPositions, fastDynamicPositions,
                 old(fastObstacleStates[..])[..|fastDynamicPositions|], dynamicOrders, fastOrders)
  {
    newDynamicPositions := MoveEach(grid, dynamicPositions, DynamicObstacle, dynamicOrders);
    newFastDynamicPositions := MoveFast(grid, fastDynamicPositions, fastObstacleStates, fastOrders);
    states, count := fastObstacleStates, collisionCount;
  }
}
