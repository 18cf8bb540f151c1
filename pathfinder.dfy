/**
 * `a_star`: best-first search from the robot's cell to a target cell on a snapshot of the grid,
 * with the Manhattan distance as heuristic, returning the cells of a shortest route (the
 * start excluded, the goal included) or nothing when the goal cannot be reached.
 *
 * The open set is a list of (f, cell) entries from which the least entry, compared as the
 * program's tuples are, is taken each round. No closed set is kept: a cell is expanded again
 * whenever an entry for it is popped. The ghost map `closed` records, for the proof only,
 * the cost each cell had when it was last expanded.
 */
module PathFinder {
  import opened Grid

  /** A cell a route may enter: in bounds and holding neither 'S' nor 'D1'. Fast obstacles, items and the robot do not block. */
  predicate Passable(b: Board, p: Pos)
  {
    p in b && b[p] != StaticObstacle && b[p] != DynamicObstacle
  }

  /** The cell a route from `from` ends on. */
  function End(from: Pos, path: seq<Pos>): Pos
  {
    if path == [] then from else path[|path| - 1]
  }

  /** `path` lists the cells a walk from `from` enters, one cardinal step each, all passable. */
  predicate IsWalk(b: Board, from: Pos, path: seq<Pos>)
  {
    && (forall i :: 0 <= i < |path| ==> Passable(b, path[i]))
    && (|path| > 0 ==> Adjacent(from, path[0]))
    && (forall i :: 0 < i < |path| ==> Adjacent(path[i - 1], path[i]))
  }

  /** A route from `from` to `to`, in the form the search returns it. */
  predicate IsPath(b: Board, from: Pos, to: Pos, path: seq<Pos>)
  {
    IsWalk(b, from, path) && End(from, path) == to
  }

  /** Stepping from p onto c and then following a walk from c is a walk from p. */
  lemma WalkPrepend(b: Board, p: Pos, c: Pos, w: seq<Pos>)
    requires IsWalk(b, c, w) && Adjacent(p, c) && Passable(b, c)
    ensures IsWalk(b, p, [c] + w) && End(p, [c] + w) == End(c, w)
  {
    var w' := [c] + w;
    forall i | 0 < i < |w'|
      ensures Adjacent(w'[i - 1], w'[i])
    {
      if i > 1 {
        assert w'[i - 1] == w[i - 2] && w'[i] == w[i - 1];
      }
    }
  }

  function Reversed(s: seq<Pos>): (r: seq<Pos>)
    ensures |r| == |s|
    ensures forall i :: 0 <= i < |s| ==> r[i] == s[|s| - 1 - i]
  {
    if s == [] then [] else Reversed(s[1..]) + [s[0]]
  }

  lemma ReversedSnoc(s: seq<Pos>, c: Pos)
    ensures Reversed(s + [c]) == [c] + Reversed(s)
  {
    var r, t := Reversed(s + [c]), [c] + Reversed(s);
    forall i | 0 <= i < |r|
      ensures r[i] == t[i]
    {
      if i > 0 {
        assert t[i] == Reversed(s)[i - 1];
      }
    }
  }

  /** An entry of the open set: the priority f and the cell it was pushed for. */
  datatype Entry = Entry(f: int, node: Pos)

  /** The order of the program's (f, (x, y)) tuples: by f, then row, then column. */
  predicate EntryLe(a: Entry, b: Entry)
  {
    || a.f < b.f
    || (a.f == b.f && a.node.row < b.node.row)
    || (a.f == b.f && a.node.row == b.node.row && a.node.col <= b.node.col)
  }

  /** `heappop`: removes and returns a least entry of the open set. */
  method PopMin(open: seq<Entry>) returns (e: Entry, rest: seq<Entry>)
    requires open != []
    ensures e in open
    ensures forall x :: x in open ==> EntryLe(e, x)
    ensures multiset(rest) + multiset{e} == multiset(open)
    ensures |rest| == |open| - 1
  {
    var m := 0;
    for i := 1 to |open|
      invariant 0 <= m < |open|
      invariant forall j :: 0 <= j < i ==> EntryLe(open[m], open[j])
    {
      if !EntryLe(open[m], open[i]) {
        m := i;
      }
    }
    e := open[m];
    rest := open[..m] + open[m + 1..];
    assert open == open[..m] + [e] + open[m + 1..];
  }

  /** The mutable state of `a_star`: the open set, the parent links, and the g and f costs. */
  datatype Search = Search(open: seq<Entry>, cameFrom: map<Pos, Pos>, g: map<Pos, nat>, f: map<Pos, int>)

  /**
   * The body of the neighbour loop of `a_star` for cell u and direction d: a passable
   * neighbour whose cost falls through u gets u as parent, the new costs, and an entry.
   */
  function RelaxDir(b: Board, goal: Pos, u: Pos, d: (int, int), s: Search): (r: Search)
    requires u in s.g
  {
    var w, t := Shift(u, d), s.g[u] + 1;
    if Passable(b, w) && (w !in s.g || t < s.g[w]) then
      Search(s.open + [Entry(t + Heuristic(w, goal), w)], s.cameFrom[w := u], s.g[w := t],
             s.f[w := t + Heuristic(w, goal)])
    else
      s
  }

  /** The neighbour loop of `a_star` for cell u, after its first k directions. */
  function ExpandUpTo(b: Board, goal: Pos, u: Pos, s: Search, k: nat): (r: Search)
    requires u in s.g && k <= 4
    ensures u in r.g && r.g[u] == s.g[u]
  {
    if k == 0 then s
    else
      var prev := ExpandUpTo(b, goal, u, s, k - 1);
      assert Shift(u, Directions[k - 1]) != u;
      RelaxDir(b, goal, u, Directions[k - 1], prev)
  }

  /** v was expanded at its present cost. */
  ghost predicate Settled(closed: map<Pos, nat>, g: map<Pos, nat>, v: Pos)
  {
    v in g && v in closed && closed[v] == g[v]
  }

  /** The open set holds an entry for v no worse than its present cost plus the heuristic. */
  ghost predicate Queued(open: seq<Entry>, g: map<Pos, nat>, goal: Pos, v: Pos)
    requires v in g
  {
    exists x :: x in open && x.node == v && x.f <= g[v] + Heuristic(v, goal)
  }

  /** w is no costlier than one step past v, when it can be entered at all. */
  ghost predicate RelaxedTo(b: Board, g: map<Pos, nat>, v: Pos, w: Pos)
    requires v in g
  {
    Passable(b, w) ==> w in g && g[w] <= g[v] + 1
  }

  ghost predicate RelaxedFrom(b: Board, g: map<Pos, nat>, v: Pos)
    requires v in g
  {
    forall w :: Adjacent(v, w) ==> RelaxedTo(b, g, v, w)
  }

  /**
   * The search tree: the start costs 0 and has no parent; every other discovered cell has a
   * discovered parent one step away and cheaper, and can be entered.
   */
  ghost predicate TreeInv(b: Board, start: Pos, cameFrom: map<Pos, Pos>, g: map<Pos, nat>)
  {
    && start in g && g[start] == 0 && start !in cameFrom
    && (forall v {:trigger v in cameFrom} :: v in g ==> v == start || v in cameFrom)
    && (forall v {:trigger cameFrom[v]} :: v in cameFrom ==>
          && v in g && cameFrom[v] in g && g[cameFrom[v]] < g[v]
          && Adjacent(cameFrom[v], v) && Passable(b, v))
  }

  /** Every entry is for a discovered cell, and, but for the start's, never beats cost plus heuristic. */
  ghost predicate OpenInv(open: seq<Entry>, start: Pos, goal: Pos, g: map<Pos, nat>)
  {
    forall x :: x in open ==> x.node in g && (x.node != start ==> x.f >= g[x.node] + Heuristic(x.node, goal))
  }

  /** Expanded cells were discovered first and costs only fall; the goal is never expanded. */
  ghost predicate ClosedInv(closed: map<Pos, nat>, g: map<Pos, nat>, goal: Pos)
  {
    && goal !in closed
    && forall v :: v in closed ==> v in g && closed[v] >= g[v]
  }

  /** Every discovered cell is settled or waiting in the open set. */
  ghost predicate Covered(open: seq<Entry>, closed: map<Pos, nat>, g: map<Pos, nat>, goal: Pos)
  {
    forall v :: v in g ==> Settled(closed, g, v) || Queued(open, g, goal, v)
  }

  /** Every settled cell outside `except` has relaxed all its neighbours. */
  ghost predicate Relaxed(b: Board, closed: map<Pos, nat>, g: map<Pos, nat>, except: set<Pos>)
  {
    forall v :: Settled(closed, g, v) && v !in except ==> RelaxedFrom(b, g, v)
  }

  /** The invariant of the search loop, between two pops. */
  ghost predicate SearchInv(b: Board, start: Pos, goal: Pos, open: seq<Entry>, cameFrom: map<Pos, Pos>,
                            g: map<Pos, nat>, closed: map<Pos, nat>)
  {
    && TreeInv(b, start, cameFrom, g) && OpenInv(open, start, goal, g) && ClosedInv(closed, g, goal)
    && Covered(open, closed, g, goal) && Relaxed(b, closed, g, {})
  }

  /** The invariant while cell u is expanded, after its first k directions. */
  ghost predicate Expanding(b: Board, start: Pos, goal: Pos, open: seq<Entry>, cameFrom: map<Pos, Pos>,
                            g: map<Pos, nat>, closed: map<Pos, nat>, u: Pos, k: nat)
  {
    && TreeInv(b, start, cameFrom, g) && OpenInv(open, start, goal, g) && ClosedInv(closed, g, goal)
    && Covered(open, closed, g, goal) && Relaxed(b, closed, g, {u})
    && Settled(closed, g, u)
    && forall j :: 0 <= j < k && j < 4 ==> RelaxedTo(b, g, u, Shift(u, Directions[j]))
  }

  /**
   * The frontier property of A* with a consistent heuristic: along any walk from the start,
   * either the open set holds an entry no worse than the walk's length plus the heuristic at
   * its end, or the end is settled at a cost no greater than the walk's length.
   */
  lemma {:induction false} Frontier(b: Board, start: Pos, goal: Pos, open: seq<Entry>, g: map<Pos, nat>,
                                    closed: map<Pos, nat>, w: seq<Pos>)
    requires start in g && g[start] == 0
    requires Covered(open, closed, g, goal) && Relaxed(b, closed, g, {})
    requires IsWalk(b, start, w)
    ensures || (exists x :: x in open && x.f <= |w| + Heuristic(End(start, w), goal))
            || (Settled(closed, g, End(start, w)) && g[End(start, w)] <= |w|)
    decreases |w|
  {
    if w == [] {
      assert Settled(closed, g, start) || Queued(open, g, goal, start);
    } else {
      var n := |w| - 1;
      var w' := w[..n];
      assert IsWalk(b, start, w');
      Frontier(b, start, goal, open, g, closed, w');
      var y, z := End(start, w'), w[n];
      assert Adjacent(y, z) && Passable(b, z);
      HeuristicTriangle(y, z, goal);
      if Settled(closed, g, y) && g[y] <= n {
        assert RelaxedTo(b, g, y, z);
        assert Settled(closed, g, z) || Queued(open, g, goal, z);
      }
    }
  }

  /** When the goal's entry is the least one, the goal's cost is no greater than any route's length. */
  lemma GoalOptimal(b: Board, start: Pos, goal: Pos, open: seq<Entry>, cameFrom: map<Pos, Pos>,
                    g: map<Pos, nat>, closed: map<Pos, nat>, e: Entry)
    requires SearchInv(b, start, goal, open, cameFrom, g, closed)
    requires e in open && e.node == goal && forall x :: x in open ==> EntryLe(e, x)
    ensures goal in g && forall q :: IsPath(b, start, goal, q) ==> g[goal] <= |q|
  {
    forall q | IsPath(b, start, goal, q)
      ensures g[goal] <= |q|
    {
      Frontier(b, start, goal, open, g, closed, q);
      var x :| x in open && x.f <= |q| + Heuristic(goal, goal);
      assert EntryLe(e, x);
    }
  }

  /** With the open set exhausted, no route reaches the goal. */
  lemma NoRoute(b: Board, start: Pos, goal: Pos, cameFrom: map<Pos, Pos>, g: map<Pos, nat>, closed: map<Pos, nat>)
    requires SearchInv(b, start, goal, [], cameFrom, g, closed)
    ensures forall q :: !IsPath(b, start, goal, q)
  {
    forall q
      ensures !IsPath(b, start, goal, q)
    {
      if IsPath(b, start, goal, q) {
        Frontier(b, start, goal, [], g, closed, q);
      }
    }
  }

  /** What a pop leaves: the other entries, and only those. */
  lemma PopRest(open: seq<Entry>, e: Entry, rest: seq<Entry>)
    requires multiset(rest) + multiset{e} == multiset(open)
    ensures forall x :: x in rest ==> x in open
    ensures forall x :: x in open && x != e ==> x in rest
  {
    forall x | x in rest
      ensures x in open
    {
      assert x in multiset(rest);
      assert x in multiset(open);
    }
    forall x | x in open && x != e
      ensures x in rest
    {
      assert x in multiset(open);
      assert x in multiset(rest);
    }
  }

  /** Popping the least entry of a cell other than the goal and marking the cell expanded. */
  lemma PopStep(b: Board, start: Pos, goal: Pos, open: seq<Entry>, cameFrom: map<Pos, Pos>,
                g: map<Pos, nat>, closed: map<Pos, nat>, e: Entry, rest: seq<Entry>)
    requires SearchInv(b, start, goal, open, cameFrom, g, closed)
    requires e in open && multiset(rest) + multiset{e} == multiset(open) && e.node != goal
    ensures e.node in g
    ensures Expanding(b, start, goal, rest, cameFrom, g, closed[e.node := g[e.node]], e.node, 0)
  {
    var u := e.node;
    var closed' := closed[u := g[u]];
    PopRest(open, e, rest);
    assert OpenInv(rest, start, goal, g);
    assert ClosedInv(closed', g, goal);
    forall v | v in g
      ensures Settled(closed', g, v) || Queued(rest, g, goal, v)
    {
      if v != u && !Settled(closed, g, v) {
        var x :| x in open && x.node == v && x.f <= g[v] + Heuristic(v, goal);
        assert x in rest;
      }
    }
    forall v | Settled(closed', g, v) && v !in {u}
      ensures RelaxedFrom(b, g, v)
    {
      assert Settled(closed, g, v);
    }
  }

  /** Direction k of the expansion of u needs no update: the cell is blocked or no cheaper through u. */
  lemma SkipStep(b: Board, start: Pos, goal: Pos, s: Search, closed: map<Pos, nat>, u: Pos, k: nat)
    requires Expanding(b, start, goal, s.open, s.cameFrom, s.g, closed, u, k) && k < 4
    requires var w := Shift(u, Directions[k]); !(Passable(b, w) && (w !in s.g || s.g[u] + 1 < s.g[w]))
    ensures var r := RelaxDir(b, goal, u, Directions[k], s);
            Expanding(b, start, goal, r.open, r.cameFrom, r.g, closed, u, k + 1)
  {
    assert RelaxDir(b, goal, u, Directions[k], s) == s;
    assert RelaxedTo(b, s.g, u, Shift(u, Directions[k]));
  }

  /** Giving w the parent u at cost g[u] + 1 keeps the search tree, when that lowers w's cost. */
  lemma RelaxTree(b: Board, start: Pos, cameFrom: map<Pos, Pos>, g: map<Pos, nat>, u: Pos, w: Pos)
    requires TreeInv(b, start, cameFrom, g) && u in g && Adjacent(u, w) && Passable(b, w)
    requires w !in g || g[u] + 1 < g[w]
    ensures TreeInv(b, start, cameFrom[w := u], g[w := g[u] + 1])
  {
    assert w != start;
  }

  /** Lowering costs keeps the open-set bound, and the pushed entry meets it. */
  lemma RelaxOpen(open: seq<Entry>, start: Pos, goal: Pos, g: map<Pos, nat>, w: Pos, t: nat)
    requires OpenInv(open, start, goal, g) && (w !in g || t < g[w])
    ensures OpenInv(open + [Entry(t + Heuristic(w, goal), w)], start, goal, g[w := t])
  {
  }

  /** Lowering w's cost unsettles w, and the pushed entry queues it; every other cell keeps its cover. */
  lemma RelaxCovered(open: seq<Entry>, closed: map<Pos, nat>, g: map<Pos, nat>, goal: Pos, w: Pos, t: nat)
    requires Covered(open, closed, g, goal) && ClosedInv(closed, g, goal) && (w !in g || t < g[w])
    ensures ClosedInv(closed, g[w := t], goal)
    ensures Covered(open + [Entry(t + Heuristic(w, goal), w)], closed, g[w := t], goal)
    ensures forall v :: Settled(closed, g[w := t], v) ==> v != w && Settled(closed, g, v)
  {
    var open', g' := open + [Entry(t + Heuristic(w, goal), w)], g[w := t];
    forall v | v in g'
      ensures Settled(closed, g', v) || Queued(open', g', goal, v)
    {
      if v == w {
        assert open'[|open|] in open';
      } else if !Settled(closed, g, v) {
        var x :| x in open && x.node == v && x.f <= g[v] + Heuristic(v, goal);
        assert x in open';
      }
    }
  }

  /** Lowering a cost keeps every settled cell relaxed. */
  lemma RelaxRelaxed(b: Board, closed: map<Pos, nat>, g: map<Pos, nat>, except: set<Pos>, w: Pos, t: nat)
    requires Relaxed(b, closed, g, except) && (w !in g || t < g[w])
    requires forall v :: Settled(closed, g[w := t], v) ==> v != w && Settled(closed, g, v)
    ensures Relaxed(b, closed, g[w := t], except)
  {
    var g' := g[w := t];
    forall v | Settled(closed, g', v) && v !in except
      ensures RelaxedFrom(b, g', v)
    {
      assert v != w && Settled(closed, g, v);
      forall z | Adjacent(v, z)
        ensures RelaxedTo(b, g', v, z)
      {
        assert RelaxedTo(b, g, v, z);
      }
    }
  }

  /** Lowering w = u + Directions[k] to g[u] + 1 relaxes it and keeps u's earlier directions relaxed. */
  lemma RelaxDone(b: Board, g: map<Pos, nat>, u: Pos, k: nat, w: Pos, t: nat)
    requires u in g && k < 4 && w == Shift(u, Directions[k]) && w != u && t == g[u] + 1
    requires forall j :: 0 <= j < k && j < 4 ==> RelaxedTo(b, g, u, Shift(u, Directions[j]))
    ensures forall j :: 0 <= j < k + 1 && j < 4 ==> RelaxedTo(b, g[w := t], u, Shift(u, Directions[j]))
  {
    var g' := g[w := t];
    forall j | 0 <= j < k + 1 && j < 4
      ensures RelaxedTo(b, g', u, Shift(u, Directions[j]))
    {
      if j < k {
        assert RelaxedTo(b, g, u, Shift(u, Directions[j]));
      }
    }
  }

  /** Direction k of the expansion of u reaches w more cheaply: record the parent, the cost, and push. */
  lemma RelaxStep(b: Board, start: Pos, goal: Pos, s: Search, closed: map<Pos, nat>, u: Pos, k: nat)
    requires Expanding(b, start, goal, s.open, s.cameFrom, s.g, closed, u, k) && k < 4
    requires var w := Shift(u, Directions[k]); Passable(b, w) && (w !in s.g || s.g[u] + 1 < s.g[w])
    ensures var r := RelaxDir(b, goal, u, Directions[k], s);
            Expanding(b, start, goal, r.open, r.cameFrom, r.g, closed, u, k + 1)
  {
    var w, t := Shift(u, Directions[k]), s.g[u] + 1;
    var open, cameFrom, g := s.open, s.cameFrom, s.g;
    var r := RelaxDir(b, goal, u, Directions[k], s);
    assert r.open == open + [Entry(t + Heuristic(w, goal), w)];
    assert r.cameFrom == cameFrom[w := u] && r.g == g[w := t];
    assert Adjacent(u, w) && w != u;
    RelaxTree(b, start, cameFrom, g, u, w);
    RelaxOpen(open, start, goal, g, w, t);
    RelaxCovered(open, closed, g, goal, w, t);
    RelaxRelaxed(b, closed, g, {u}, w, t);
    RelaxDone(b, g, u, k, w, t);
  }

  /** All four directions of u done: u has relaxed every neighbour and the loop invariant is back. */
  lemma FinishStep(b: Board, start: Pos, goal: Pos, open: seq<Entry>, cameFrom: map<Pos, Pos>,
                   g: map<Pos, nat>, closed: map<Pos, nat>, u: Pos)
    requires Expanding(b, start, goal, open, cameFrom, g, closed, u, 4)
    ensures SearchInv(b, start, goal, open, cameFrom, g, closed)
  {
    forall w | Adjacent(u, w)
      ensures RelaxedTo(b, g, u, w)
    {
      AdjacentIsShift(u, w);
    }
  }

  /** Cells discovered but not yet: shrinks whenever a new cell of the board is discovered. */
  ghost function Unseen(b: Board, g: map<Pos, nat>): set<Pos>
  {
    b.Keys - g.Keys
  }

  /** One pair per unit of recorded cost: shrinks whenever a recorded cost falls. */
  ghost function Pending(g: map<Pos, nat>): set<(Pos, int)>
  {
    set v, n | v in g && 0 <= n < g[v] :: (v, n)
  }

  /** The termination measure (Unseen, Pending, open-set size) has fallen from its value at g0, l0. */
  ghost predicate Below(b: Board, g0: map<Pos, nat>, l0: int, g: map<Pos, nat>, l: int)
  {
    || Unseen(b, g) < Unseen(b, g0)
    || (Unseen(b, g) == Unseen(b, g0) && Pending(g) < Pending(g0))
    || (Unseen(b, g) == Unseen(b, g0) && Pending(g) == Pending(g0) && l < l0)
  }

  /** Costs only fall and cells are never forgotten. */
  ghost predicate Mono(g0: map<Pos, nat>, g: map<Pos, nat>)
  {
    forall v :: v in g0 ==> v in g && g[v] <= g0[v]
  }

  /**
   * A round of the search lowers the measure: costs only fell, new cells lie on the board,
   * and a round that changed no cost left one entry fewer.
   */
  lemma MeasureDrops(b: Board, g0: map<Pos, nat>, l0: int, g: map<Pos, nat>, l: int)
    requires Mono(g0, g) && (forall v :: v in g && v !in g0 ==> v in b)
    requires g == g0 ==> l < l0
    ensures Below(b, g0, l0, g, l)
  {
    if g.Keys != g0.Keys {
      var w :| w in g && w !in g0;
      assert w in Unseen(b, g0) && w !in Unseen(b, g);
      assert Unseen(b, g) < Unseen(b, g0);
    } else if g != g0 {
      var v :| v in g0 && g[v] != g0[v];
      assert (v, g[v]) in Pending(g0) && (v, g[v]) !in Pending(g);
      assert Pending(g) <= Pending(g0);
      assert Unseen(b, g) == Unseen(b, g0);
    }
  }

  /** Lowering or adding one cost keeps costs below those of g0 and makes the map differ from g0. */
  lemma LowerStep(b: Board, g0: map<Pos, nat>, g: map<Pos, nat>, w: Pos, t: nat)
    requires Mono(g0, g) && (forall v :: v in g && v !in g0 ==> v in b)
    requires w in b && (w !in g || t < g[w])
    ensures Mono(g0, g[w := t]) && (forall v :: v in g[w := t] && v !in g0 ==> v in b)
    ensures g[w := t] != g0
  {
    assert g[w := t][w] != if w in g0 then g0[w] else -1;
  }

  /** Direction k of the expansion of u, both outcomes: the invariant moves to direction k + 1. */
  lemma NeighborStep(b: Board, start: Pos, goal: Pos, s: Search, closed: map<Pos, nat>, u: Pos, k: nat)
    requires Expanding(b, start, goal, s.open, s.cameFrom, s.g, closed, u, k) && k < 4
    ensures var r := RelaxDir(b, goal, u, Directions[k], s);
            Expanding(b, start, goal, r.open, r.cameFrom, r.g, closed, u, k + 1)
  {
    var w := Shift(u, Directions[k]);
    if Passable(b, w) && (w !in s.g || s.g[u] + 1 < s.g[w]) {
      RelaxStep(b, start, goal, s, closed, u, k);
    } else {
      SkipStep(b, start, goal, s, closed, u, k);
    }
  }

  /**
   * One pass of the neighbour loop only lowers costs, below those of g0 if they were already,
   * adds only cells of the board, and a pass that changed anything leaves costs different from g0.
   */
  lemma LowerDir(b: Board, goal: Pos, g0: map<Pos, nat>, s: Search, u: Pos, d: (int, int))
    requires u in s.g && Mono(g0, s.g) && (forall v :: v in s.g && v !in g0 ==> v in b)
    ensures var r := RelaxDir(b, goal, u, d, s);
            && Mono(g0, r.g) && (forall v :: v in r.g && v !in g0 ==> v in b)
            && ((r.g == s.g && r.open == s.open) || r.g != g0)
  {
    var w, t := Shift(u, d), s.g[u] + 1;
    if Passable(b, w) && (w !in s.g || t < s.g[w]) {
      LowerStep(b, g0, s.g, w, t);
    }
  }

  /** The first k directions of the expansion of u keep the invariant, lowering costs only. */
  lemma {:induction false} ExpandInv(b: Board, start: Pos, goal: Pos, s: Search, closed: map<Pos, nat>, u: Pos, k: nat)
    requires Expanding(b, start, goal, s.open, s.cameFrom, s.g, closed, u, 0) && k <= 4
    ensures var r := ExpandUpTo(b, goal, u, s, k);
            && Expanding(b, start, goal, r.open, r.cameFrom, r.g, closed, u, k)
            && Mono(s.g, r.g) && (forall v :: v in r.g && v !in s.g ==> v in b)
            && (r.g == s.g ==> r.open == s.open)
  {
    if k > 0 {
      ExpandInv(b, start, goal, s, closed, u, k - 1);
      var prev := ExpandUpTo(b, goal, u, s, k - 1);
      NeighborStep(b, start, goal, prev, closed, u, k - 1);
      LowerDir(b, goal, s.g, prev, u, Directions[k - 1]);
    }
  }

  /**
   * Expanding a popped cell restores the search invariant; costs only fall, new cells lie on
   * the board, and an expansion that lowered no cost pushed nothing.
   */
  lemma ExpandKeeps(b: Board, start: Pos, goal: Pos, s: Search, closed: map<Pos, nat>, u: Pos)
    requires Expanding(b, start, goal, s.open, s.cameFrom, s.g, closed, u, 0)
    ensures var r := ExpandUpTo(b, goal, u, s, 4);
            && SearchInv(b, start, goal, r.open, r.cameFrom, r.g, closed)
            && Mono(s.g, r.g) && (forall v :: v in r.g && v !in s.g ==> v in b)
            && (r.g == s.g ==> r.open == s.open)
  {
    ExpandInv(b, start, goal, s, closed, u, 4);
    var r := ExpandUpTo(b, goal, u, s, 4);
    FinishStep(b, start, goal, r.open, r.cameFrom, r.g, closed, u);
  }

  /** The test of `a_star` on a neighbour: in bounds, and holding neither 'S' nor 'D1'. */
  method Traversable(grid: array2<Cell>, ghost b: Board, p: Pos) returns (ok: bool)
    requires b == Snapshot(grid)
    ensures ok <==> Passable(b, p)
  {
    SnapshotAt(grid, p);
    ok := 0 <= p.row < grid.Length0 && 0 <= p.col < grid.Length1
          && grid[p.row, p.col] != StaticObstacle && grid[p.row, p.col] != DynamicObstacle;
  }

  /**
   * One pass of the neighbour loop of `a_star`: the neighbour of `current` in direction
   * (dx, dy), if traversable and cheaper through `current`, records `current` as its parent,
   * the new g and f costs, and gets an entry pushed.
   */
  method RelaxNeighbor(grid: array2<Cell>, ghost b: Board, goal: Pos, current: Pos, dx: int, dy: int,
                       openSet: seq<Entry>, cameFrom: map<Pos, Pos>, gScore: map<Pos, nat>, fScore: map<Pos, int>)
    returns (open1: seq<Entry>, cameFrom1: map<Pos, Pos>, gScore1: map<Pos, nat>, fScore1: map<Pos, int>)
    requires b == Snapshot(grid) && current in gScore
    ensures Search(open1, cameFrom1, gScore1, fScore1)
         == RelaxDir(b, goal, current, (dx, dy), Search(openSet, cameFrom, gScore, fScore))
  {
    open1, cameFrom1, gScore1, fScore1 := openSet, cameFrom, gScore, fScore;
    var neighbor := Pos(current.row + dx, current.col + dy);
    var traversable := Traversable(grid, b, neighbor);
    if traversable {
      var tentative := gScore[current] + 1;
      if neighbor !in gScore || tentative < gScore[neighbor] {
        cameFrom1 := cameFrom[neighbor := current];
        gScore1 := gScore[neighbor := tentative];
        fScore1 := fScore[neighbor := tentative + Heuristic(neighbor, goal)];
        open1 := openSet + [Entry(fScore1[neighbor], neighbor)];
      }
    }
  }

  /**
   * The neighbour loop of `a_star` for the popped cell `current`, over the four directions in
   * the program's order.
   */
  method ExpandCell(grid: array2<Cell>, ghost b: Board, goal: Pos, current: Pos,
                    openSet: seq<Entry>, cameFrom: map<Pos, Pos>, gScore: map<Pos, nat>, fScore: map<Pos, int>)
    returns (open1: seq<Entry>, cameFrom1: map<Pos, Pos>, gScore1: map<Pos, nat>, fScore1: map<Pos, int>)
    requires b == Snapshot(grid) && current in gScore
    ensures Search(open1, cameFrom1, gScore1, fScore1)
         == ExpandUpTo(b, goal, current, Search(openSet, cameFrom, gScore, fScore), 4)
  {
    ghost var s := Search(openSet, cameFrom, gScore, fScore);
    open1, cameFrom1, gScore1, fScore1 := openSet, cameFrom, gScore, fScore;
    for k := 0 to 4
      invariant Search(open1, cameFrom1, gScore1, fScore1) == ExpandUpTo(b, goal, current, s, k)
    {
      var (dx, dy) := Directions[k];
      open1, cameFrom1, gScore1, fScore1 :=
        RelaxNeighbor(grid, b, goal, current, dx, dy, open1, cameFrom1, gScore1, fScore1);
    }
  }

  /**
   * The path-building loop of `a_star`: follows the parent links back from the goal to the
   * start and reverses what it collected, so the route excludes the start and ends on the goal.
   */
  method BuildPath(ghost b: Board, ghost start: Pos, cameFrom: map<Pos, Pos>, gScore: map<Pos, nat>, goal: Pos)
    returns (path: seq<Pos>)
    requires TreeInv(b, start, cameFrom, gScore) && goal in gScore
    ensures IsPath(b, start, goal, path) && |path| <= gScore[goal]
  {
    var current := goal;
    path := [];
    while current in cameFrom
      invariant current in gScore
      invariant IsPath(b, current, goal, Reversed(path))
      invariant |path| + gScore[current] <= gScore[goal]
      decreases gScore[current]
    {
      var parent := cameFrom[current];
      ReversedSnoc(path, current);
      WalkPrepend(b, parent, current, Reversed(path));
      path := path + [current];
      current := parent;
    }
    path := Reversed(path);
  }

  /**
   * `a_star`: searches the grid from `start` to `goal`. A returned route is a shortest one:
   * it enters only passable cells, one cardinal step at a time, ends on the goal, and no route
   * is shorter. Nothing is returned exactly when no route exists. A start equal to the goal
   * gives the empty route.
   */
  method AStar(grid: array2<Cell>, start: Pos, goal: Pos) returns (r: Option<seq<Pos>>)
    ensures r.Some? ==> IsPath(Snapshot(grid), start, goal, r.value)
    ensures r.Some? ==> forall q :: IsPath(Snapshot(grid), start, goal, q) ==> |r.value| <= |q|
    ensures r.None? <==> forall q :: !IsPath(Snapshot(grid), start, goal, q)
    ensures start == goal ==> r == Some([])
  {
    ghost var b := Snapshot(grid);
    var openSet := [Entry(0, start)];
    var cameFrom: map<Pos, Pos> := map[];
    var gScore: map<Pos, nat> := map[start := 0];
    var fScore: map<Pos, int> := map[start := Heuristic(start, goal)];
    ghost var closed: map<Pos, nat> := map[];
    assert Queued(openSet, gScore, goal, start);

    while openSet != []
      invariant SearchInv(b, start, goal, openSet, cameFrom, gScore, closed)
      decreases Unseen(b, gScore), Pending(gScore), |openSet|
    {
      ghost var open0, g0 := openSet, gScore;
      var e;
      e, openSet := PopMin(openSet);
      var current := e.node;

      if current == goal {
        GoalOptimal(b, start, goal, open0, cameFrom, gScore, closed, e);
        var path := BuildPath(b, start, cameFrom, gScore, goal);
        return Some(path);
      }

      PopStep(b, start, goal, open0, cameFrom, gScore, closed, e, openSet);
      closed := closed[current := gScore[current]];
      ExpandKeeps(b, start, goal, Search(openSet, cameFrom, gScore, fScore), closed, current);
      openSet, cameFrom, gScore, fScore := ExpandCell(grid, b, goal, current, openSet, cameFrom, gScore, fScore);
      MeasureDrops(b, g0, |open0|, gScore, |openSet|);
    }
    NoRoute(b, start, goal, cameFrom, gScore, closed);
    return None;
  }
}
