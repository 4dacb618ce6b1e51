/**
 * Looking cells up, their four neighbours, walkability, and the Manhattan
 * distance that A* uses as its heuristic.
 */
module Adjacency {
  import opened Types
  import opened GridModel

  /** `getNode`: the node at `c`, or `None` (the engine's `null`) off the grid. */
  function GetNode(cells: Cells, c: Coord): (r: Option<Node>)
    requires Rectangular(cells)
    ensures r.None? <==> c.col < 0 || c.col >= Cols(cells) || c.row < 0 || c.row >= Rows(cells)
    ensures r.Some? ==> r.value == At(cells, c)
  {
    if c.col < 0 || c.col >= |cells| then None
    else if c.row < 0 || c.row >= |cells[0]| then None
    else Some(cells[c.col][c.row])
  }

  /** `isWalkable`: a node that exists and is not a wall. */
  predicate IsWalkable(n: Option<Node>)
  {
    n.Some? && !n.value.solid
  }

  /** The cell at `c` exists and is not a wall. */
  predicate Open(cells: Cells, c: Coord)
    requires Rectangular(cells)
  {
    InBounds(cells, c) && !At(cells, c).solid
  }

  /**
   * `isWalkable(getNode(grid, c))` holds exactly for the open cells. This is
   * why the models of the neighbour scans of every search (discovering,
   * relaxing and expanding a neighbour) test `Open` where the engine calls
   * `isWalkable` on a neighbour.
   */
  lemma OpenIsWalkable(cells: Cells, c: Coord)
    requires Rectangular(cells)
    ensures Open(cells, c) <==> IsWalkable(GetNode(cells, c))
  {
  }

  function Abs(x: int): nat
  {
    if x < 0 then -x else x
  }

  /** `manhattan`. */
  function Manhattan(a: Coord, b: Coord): nat
  {
    Abs(a.col - b.col) + Abs(a.row - b.row)
  }

  predicate Adjacent(a: Coord, b: Coord)
  {
    Manhattan(a, b) == 1
  }

  /** Manhattan distance is a metric on cells. */
  lemma ManhattanMetric(a: Coord, b: Coord, c: Coord)
    ensures Manhattan(a, b) == 0 <==> a == b
    ensures Manhattan(a, b) == Manhattan(b, a)
    ensures Manhattan(a, c) <= Manhattan(a, b) + Manhattan(b, c)
  {
  }

  /**
   * The Manhattan heuristic is consistent: across one step it drops by at
   * most one, so it never overestimates the remaining number of steps.
   */
  lemma ManhattanConsistent(a: Coord, b: Coord, goal: Coord)
    requires Adjacent(a, b)
    ensures Manhattan(a, goal) <= Manhattan(b, goal) + 1
    ensures Manhattan(b, goal) <= Manhattan(a, goal) + 1
  {
    ManhattanMetric(a, b, goal);
    ManhattanMetric(b, a, goal);
  }

  /** The four cells next to `c`, in the engine's order: up, down, left, right. */
  function Around(c: Coord): seq<Coord>
  {
    [Coord(c.col, c.row - 1), Coord(c.col, c.row + 1), Coord(c.col - 1, c.row), Coord(c.col + 1, c.row)]
  }

  /** Where `x` is in the up, down, left, right order around `c`. */
  function Direction(c: Coord, x: Coord): nat
  {
    if x == Coord(c.col, c.row - 1) then 0
    else if x == Coord(c.col, c.row + 1) then 1
    else if x == Coord(c.col - 1, c.row) then 2
    else 3
  }

  /** `[x]` when `getNode` finds `x`, and `[]` when it returns `null` (`filter(Boolean)`). */
  function Keep(cells: Cells, x: Coord): (r: seq<Coord>)
    requires Rectangular(cells)
  {
    if GetNode(cells, x).Some? then [x] else []
  }

  /**
   * `neighbors`: the cells next to `c` that lie on the grid, each at
   * Manhattan distance one, every such cell exactly once, in the order
   * up, down, left, right.
   */
  function Neighbors(cells: Cells, c: Coord): (r: seq<Coord>)
    requires Rectangular(cells)
    ensures |r| <= 4
    ensures forall x {:trigger x in r} :: x in r <==> InBounds(cells, x) && Adjacent(c, x)
    ensures forall i, j :: 0 <= i < j < |r| ==> Direction(c, r[i]) < Direction(c, r[j])
  {
    var a := Around(c);
    assert forall x :: Adjacent(c, x) <==> x in a;
    NeighborsOrdered(cells, c);
    Keep(cells, a[0]) + Keep(cells, a[1]) + Keep(cells, a[2]) + Keep(cells, a[3])
  }

  predicate Increasing(c: Coord, s: seq<Coord>)
  {
    forall i, j :: 0 <= i < j < |s| ==> Direction(c, s[i]) < Direction(c, s[j])
  }

  /** The directions in `s` all come after `k`, in increasing order. */
  predicate IncreasingFrom(c: Coord, s: seq<Coord>, k: nat)
  {
    Increasing(c, s) && forall i :: 0 <= i < |s| ==> k < Direction(c, s[i])
  }

  /** Putting a kept cell of direction `k` in front keeps the directions increasing. */
  lemma KeepFront(cells: Cells, c: Coord, x: Coord, s: seq<Coord>, k: nat)
    requires Rectangular(cells) && Direction(c, x) == k && IncreasingFrom(c, s, k)
    ensures k > 0 ==> IncreasingFrom(c, Keep(cells, x) + s, k - 1)
    ensures Increasing(c, Keep(cells, x) + s)
  {
    var r := Keep(cells, x) + s;
    if GetNode(cells, x).Some? {
      forall i | 0 < i < |r|
        ensures r[i] == s[i - 1]
      {
      }
    } else {
      assert r == s;
    }
  }

  lemma NeighborsOrdered(cells: Cells, c: Coord)
    requires Rectangular(cells)
    ensures var a := Around(c);
      Increasing(c, Keep(cells, a[0]) + Keep(cells, a[1]) + Keep(cells, a[2]) + Keep(cells, a[3]))
  {
    var a := Around(c);
    var none: seq<Coord> := [];
    var s3, s2, s1 := Keep(cells, a[3]), Keep(cells, a[2]), Keep(cells, a[1]);
    assert IncreasingFrom(c, none, 3);
    KeepFront(cells, c, a[3], none, 3);
    assert s3 + none == s3;
    KeepFront(cells, c, a[2], s3, 2);
    KeepFront(cells, c, a[1], s2 + s3, 1);
    KeepFront(cells, c, a[0], s1 + (s2 + s3), 0);
    Regroup(Keep(cells, a[0]), Keep(cells, a[1]), Keep(cells, a[2]), Keep(cells, a[3]));
  }

  lemma Regroup(s0: seq<Coord>, s1: seq<Coord>, s2: seq<Coord>, s3: seq<Coord>)
    ensures s0 + s1 + s2 + s3 == s0 + (s1 + (s2 + s3))
  {
  }

  /**
   * Neighbours are distinct cells, so a scan over `neighbors` meets each
   * adjacent cell once, and the order of the scan is the only order in which
   * the searches can differ for the same neighbour set.
   */
  lemma NeighborsDistinct(cells: Cells, c: Coord)
    requires Rectangular(cells)
    ensures var r := Neighbors(cells, c);
      forall i, j :: 0 <= i < j < |r| ==> r[i] != r[j]
  {
  }
}
