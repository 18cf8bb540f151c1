/**
 * Choosing the next item: the item list is sorted by Manhattan distance from the robot with
 * the language's stable sort, and its head is taken off. The sort is modelled as an insertion
 * sort, which is stable too; the lemmas show the result is ordered by distance, is a
 * permutation of the list, keeps the list order among items at equal distance, and starts
 * with the first of the closest items.
 */
module Selection {
  import opened Grid

  /** The sort key: how far an item is from the robot. */
  function Key(robot: Pos, p: Pos): nat
  {
    Heuristic(robot, p)
  }

  predicate SortedByDistance(robot: Pos, s: seq<Pos>)
  {
    forall i, j :: 0 <= i < j < |s| ==> Key(robot, s[i]) <= Key(robot, s[j])
  }

  /** Puts x in front of the first element that is at least as far from the robot as x is. */
  function Insert(robot: Pos, x: Pos, s: seq<Pos>): (r: seq<Pos>)
    ensures multiset(r) == multiset(s) + multiset{x}
    ensures |r| == |s| + 1
    ensures r[0] == x || (s != [] && r[0] == s[0])
  {
    if s == [] || Key(robot, x) <= Key(robot, s[0]) then [x] + s
    else
      assert s == [s[0]] + s[1..];
      [s[0]] + Insert(robot, x, s[1..])
  }

  /** Inserting into a list ordered by distance keeps it ordered. */
  lemma {:induction false} InsertSorted(robot: Pos, x: Pos, s: seq<Pos>)
    requires SortedByDistance(robot, s)
    ensures SortedByDistance(robot, Insert(robot, x, s))
  {
    if s != [] && Key(robot, x) > Key(robot, s[0]) {
      var rest := Insert(robot, x, s[1..]);
      InsertSorted(robot, x, s[1..]);
      assert Key(robot, s[0]) <= Key(robot, rest[0]);
      var r := [s[0]] + rest;
      forall i, j | 0 <= i < j < |r|
        ensures Key(robot, r[i]) <= Key(robot, r[j])
      {
        assert r[j] == rest[j - 1];
        if i > 0 {
          assert r[i] == rest[i - 1];
        }
      }
    }
  }

  /** `item_positions.sort(key=distance from the robot)`. */
  function SortByDistance(robot: Pos, items: seq<Pos>): (s: seq<Pos>)
    ensures multiset(s) == multiset(items)
    ensures |s| == |items|
  {
    if items == [] then []
    else
      assert items == [items[0]] + items[1..];
      Insert(robot, items[0], SortByDistance(robot, items[1..]))
  }

  /** The sorted list is ordered by distance from the robot. */
  lemma {:induction false} SortIsSorted(robot: Pos, items: seq<Pos>)
    ensures SortedByDistance(robot, SortByDistance(robot, items))
  {
    if items != [] {
      SortIsSorted(robot, items[1..]);
      InsertSorted(robot, items[0], SortByDistance(robot, items[1..]));
    }
  }

  /** The items of s at distance k from the robot, in list order. */
  function AtDistance(robot: Pos, s: seq<Pos>, k: nat): (r: seq<Pos>)
    ensures forall i :: 0 <= i < |r| ==> Key(robot, r[i]) == k
  {
    if s == [] then []
    else (if Key(robot, s[0]) == k then [s[0]] else []) + AtDistance(robot, s[1..], k)
  }

  /** Inserting x adds it in front of the items at its own distance and changes no other distance class. */
  lemma {:induction false} InsertAtDistance(robot: Pos, x: Pos, s: seq<Pos>, k: nat)
    ensures AtDistance(robot, Insert(robot, x, s), k)
         == if Key(robot, x) == k then [x] + AtDistance(robot, s, k) else AtDistance(robot, s, k)
  {
    var r := Insert(robot, x, s);
    if s == [] || Key(robot, x) <= Key(robot, s[0]) {
      assert r[0] == x && r[1..] == s;
    } else {
      InsertAtDistance(robot, x, s[1..], k);
      assert r[0] == s[0] && r[1..] == Insert(robot, x, s[1..]);
      if Key(robot, x) == k {
        assert Key(robot, s[0]) != k;
      }
    }
  }

  /** The sort is stable: at every distance the items keep their list order. */
  lemma {:induction false} SortIsStable(robot: Pos, items: seq<Pos>, k: nat)
    ensures AtDistance(robot, SortByDistance(robot, items), k) == AtDistance(robot, items, k)
  {
    if items != [] {
      SortIsStable(robot, items[1..], k);
      InsertAtDistance(robot, items[0], SortByDistance(robot, items[1..]), k);
    }
  }

  /** The index of the first item closest to the robot. */
  function FirstNearest(robot: Pos, items: seq<Pos>): (j: nat)
    requires items != []
    ensures j < |items|
    ensures forall i :: 0 <= i < |items| ==> Key(robot, items[j]) <= Key(robot, items[i])
    ensures forall i :: 0 <= i < j ==> Key(robot, items[j]) < Key(robot, items[i])
  {
    if |items| == 1 then 0
    else
      var j := FirstNearest(robot, items[1..]);
      if Key(robot, items[0]) <= Key(robot, items[j + 1]) then 0 else j + 1
  }

  /** The first item at distance k is the head of the distance class k. */
  lemma {:induction false} AtDistanceHead(robot: Pos, s: seq<Pos>, j: nat)
    requires j < |s|
    requires forall i :: 0 <= i < j ==> Key(robot, s[i]) != Key(robot, s[j])
    ensures var c := AtDistance(robot, s, Key(robot, s[j])); c != [] && c[0] == s[j]
  {
    if j > 0 {
      AtDistanceHead(robot, s[1..], j - 1);
    }
  }

  /**
   * The head of the sorted list, the item the robot goes for next, is the first of the items
   * closest to the robot in the list as it was.
   */
  lemma NearestComesFirst(robot: Pos, items: seq<Pos>)
    requires items != []
    ensures SortByDistance(robot, items)[0] == items[FirstNearest(robot, items)]
  {
    var s := SortByDistance(robot, items);
    var j := FirstNearest(robot, items);
    SortIsSorted(robot, items);
    assert items[j] in multiset(s);
    var m :| 0 <= m < |s| && s[m] == items[j];
    assert s[0] in multiset(items);
    var n :| 0 <= n < |items| && items[n] == s[0];
    var k := Key(robot, items[j]);
    assert Key(robot, s[0]) == k;
    AtDistanceHead(robot, s, 0);
    AtDistanceHead(robot, items, j);
    SortIsStable(robot, items, k);
  }
}
