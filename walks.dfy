/**
 * Walks on the grid: sequences of steps between 4-adjacent, non-wall cells.
 * A search result is a walk that starts next to the start cell (the start
 * itself is not listed) and ends at the goal. The lemmas here are the
 * graph facts the search proofs rest on.
 */
module Walks {
  import opened Types
  import opened GridModel
  import opened Adjacency

  /** Where a walk ends. */
  function EndOf(from: Coord, w: seq<Coord>): Coord
  {
    if |w| == 0 then from else w[|w| - 1]
  }

  /** Each step goes to an adjacent cell that is on the grid and is not a wall. */
  ghost predicate Walk(cells: Cells, from: Coord, w: seq<Coord>)
    requires Rectangular(cells)
    decreases |w|
  {
    |w| == 0 || (Open(cells, w[0]) && Adjacent(from, w[0]) && Walk(cells, w[0], w[1..]))
  }

  /** What a search may return: a walk from `from` to `to` that does not list `from`. */
  ghost predicate Route(cells: Cells, from: Coord, to: Coord, p: seq<Coord>)
    requires Rectangular(cells)
  {
    Walk(cells, from, p) && EndOf(from, p) == to && from !in p
  }

  ghost predicate Reachable(cells: Cells, from: Coord, to: Coord)
    requires Rectangular(cells)
  {
    exists w :: Walk(cells, from, w) && EndOf(from, w) == to
  }

  /** A route no walk between the same cells is shorter than. */
  ghost predicate ShortestRoute(cells: Cells, from: Coord, to: Coord, p: seq<Coord>)
    requires Rectangular(cells)
  {
    Route(cells, from, to, p) &&
    forall w :: Walk(cells, from, w) && EndOf(from, w) == to ==> |p| <= |w|
  }

  /**
   * What a search run promises about its outcome, judged on the grid it
   * started from: it changed only search state; a path it returns is a
   * route from the start to the goal (a shortest one when `shortest`); and
   * it returns none only when the goal cannot be reached.
   */
  ghost predicate Sound(base: Cells, start: Coord, goal: Coord, shortest: bool, o: Outcome)
    requires Rectangular(base)
  {
    RolesKept(base, o.cells) &&
    (o.path.Some? ==> Route(base, start, goal, o.path.value) &&
                      (shortest ==> ShortestRoute(base, start, goal, o.path.value))) &&
    (o.path.None? ==> !Reachable(base, start, goal))
  }

  /** Two grids of the same shape with walls in the same places. */
  ghost predicate SameWalls(a: Cells, b: Cells)
  {
    Rectangular(a) && Rectangular(b) && SameShape(a, b) &&
    forall c :: InBounds(a, c) ==> At(a, c).solid == At(b, c).solid
  }

  /** A search, which changes only search state, keeps the walls. */
  lemma RolesKeptWalls(a: Cells, b: Cells)
    requires RolesKept(a, b)
    ensures SameWalls(a, b)
  {
    forall c | InBounds(a, c)
      ensures At(a, c).solid == At(b, c).solid
    {
      assert SameRole(At(a, c), At(b, c));
    }
  }

  /** Grids with the same roles have the same walkable cells. */
  lemma RolesKeptOpen(a: Cells, b: Cells)
    requires RolesKept(a, b)
    ensures forall x {:trigger Open(b, x)} :: Open(a, x) == Open(b, x)
  {
    forall x | InBounds(a, x)
      ensures Open(a, x) == Open(b, x)
    {
      assert SameRole(At(a, x), At(b, x));
    }
  }

  lemma SameWallsTrans(a: Cells, b: Cells, c: Cells)
    requires SameWalls(a, b) && SameWalls(b, c)
    ensures SameWalls(a, c)
  {
  }

  /** Walks depend only on the walls. */
  lemma {:induction false} SameWallsWalks(a: Cells, b: Cells, from: Coord, w: seq<Coord>)
    requires SameWalls(a, b)
    ensures Walk(a, from, w) <==> Walk(b, from, w)
    decreases |w|
  {
    if |w| > 0 {
      SameWallsWalks(a, b, w[0], w[1..]);
    }
  }

  /** Routes, reachability and shortest routes depend only on the walls. */
  lemma SameWallsRoutes(a: Cells, b: Cells, from: Coord, to: Coord, p: seq<Coord>)
    requires SameWalls(a, b)
    ensures Route(a, from, to, p) <==> Route(b, from, to, p)
    ensures Reachable(a, from, to) <==> Reachable(b, from, to)
    ensures ShortestRoute(a, from, to, p) <==> ShortestRoute(b, from, to, p)
  {
    forall w
      ensures Walk(a, from, w) <==> Walk(b, from, w)
    {
      SameWallsWalks(a, b, from, w);
    }
  }

  /** A walk extended by one step to an open neighbour of its end is a walk. */
  lemma {:induction false} WalkAppend(cells: Cells, from: Coord, w: seq<Coord>, x: Coord)
    requires Rectangular(cells) && Walk(cells, from, w)
    requires Open(cells, x) && Adjacent(EndOf(from, w), x)
    ensures Walk(cells, from, w + [x]) && EndOf(from, w + [x]) == x
    decreases |w|
  {
    if |w| > 0 {
      WalkAppend(cells, w[0], w[1..], x);
      assert (w + [x])[1..] == w[1..] + [x];
    }
  }

  /** A walk is at least as long as the Manhattan distance between its ends. */
  lemma {:induction false} WalkLowerBound(cells: Cells, from: Coord, w: seq<Coord>)
    requires Rectangular(cells) && Walk(cells, from, w)
    ensures Manhattan(from, EndOf(from, w)) <= |w|
    decreases |w|
  {
    if |w| > 0 {
      WalkLowerBound(cells, w[0], w[1..]);
      ManhattanMetric(from, w[0], EndOf(from, w));
    }
  }

  /**
   * A walk that starts in a region closed under stepping to open neighbours
   * never leaves it.
   */
  lemma {:induction false} WalkStaysInside(cells: Cells, from: Coord, w: seq<Coord>, region: set<Coord>)
    requires Rectangular(cells) && Walk(cells, from, w)
    requires from in region
    requires forall u, x :: u in region && Adjacent(u, x) && Open(cells, x) ==> x in region
    ensures EndOf(from, w) in region
    decreases |w|
  {
    if |w| > 0 {
      WalkStaysInside(cells, w[0], w[1..], region);
    }
  }

  /** A cell outside such a region cannot be reached from inside it. */
  lemma ClosedRegionUnreachable(cells: Cells, from: Coord, to: Coord, region: set<Coord>)
    requires Rectangular(cells)
    requires from in region && to !in region
    requires forall u, x :: u in region && Adjacent(u, x) && Open(cells, x) ==> x in region
    ensures !Reachable(cells, from, to)
  {
    if Reachable(cells, from, to) {
      var w :| Walk(cells, from, w) && EndOf(from, w) == to;
      WalkStaysInside(cells, from, w, region);
    }
  }

  /** The heuristic term of a lower-bound argument: Manhattan distance to the goal, or nothing. */
  function Heuristic(x: Coord, goal: Coord, informed: bool): nat
  {
    if informed then Manhattan(x, goal) else 0
  }

  /**
   * The lower bound behind the optimality of breadth-first search, Dijkstra
   * and A*. Suppose `d` assigns costs to the cells a search has discovered,
   * with 0 at the start, every cell of the settled set `settled` has all its
   * open neighbours discovered at cost at most one more, the goal is not
   * settled, and every discovered but unsettled cell `x` has
   * `d[x] + h(x) >= bound`. Then every walk from the start to the goal has at
   * least `bound` steps.
   */
  lemma {:induction false} NoShorterWalk(cells: Cells, start: Coord, goal: Coord, settled: set<Coord>, d: map<Coord, nat>,
                      bound: nat, informed: bool, w: seq<Coord>)
    requires Rectangular(cells)
    requires start in d && d[start] == 0
    requires goal !in settled
    requires forall u :: u in settled ==> u in d
    requires forall u, x :: u in settled && Adjacent(u, x) && Open(cells, x) ==> x in d && d[x] <= d[u] + 1
    requires forall x :: x in d && x !in settled ==> bound <= d[x] + Heuristic(x, goal, informed)
    requires Walk(cells, start, w) && EndOf(start, w) == goal
    ensures bound <= |w|
  {
    ScanWalk(cells, goal, settled, d, bound, informed, start, w, 0);
  }

  /**
   * `NoShorterWalk` for the rest `v` of a walk, which has reached `here`
   * after `spent` steps, where `d[here] <= spent`.
   */
  lemma {:induction false} ScanWalk(cells: Cells, goal: Coord, settled: set<Coord>, d: map<Coord, nat>,
                                    bound: nat, informed: bool, here: Coord, v: seq<Coord>, spent: nat)
    requires Rectangular(cells)
    requires goal !in settled
    requires forall u :: u in settled ==> u in d
    requires forall u, x :: u in settled && Adjacent(u, x) && Open(cells, x) ==> x in d && d[x] <= d[u] + 1
    requires forall x :: x in d && x !in settled ==> bound <= d[x] + Heuristic(x, goal, informed)
    requires Walk(cells, here, v) && EndOf(here, v) == goal
    requires here in d && d[here] <= spent
    ensures bound <= spent + |v|
    decreases |v|
  {
    if here !in settled {
      WalkLowerBound(cells, here, v);
    } else {
      assert |v| > 0;
      ScanWalk(cells, goal, settled, d, bound, informed, v[0], v[1..], spent + 1);
    }
  }

  /** One step of the straight walk: along the column first, then along the row. */
  function StepToward(a: Coord, b: Coord): (n: Coord)
    requires a != b
    ensures Adjacent(a, n) && Manhattan(n, b) + 1 == Manhattan(a, b)
  {
    if a.col < b.col then Coord(a.col + 1, a.row)
    else if a.col > b.col then Coord(a.col - 1, a.row)
    else if a.row < b.row then Coord(a.col, a.row + 1)
    else Coord(a.col, a.row - 1)
  }

  /** An L-shaped walk from `a` to `b`. */
  function StraightWalk(a: Coord, b: Coord): (w: seq<Coord>)
    ensures |w| == Manhattan(a, b)
    decreases Manhattan(a, b)
  {
    if a == b then [] else [StepToward(a, b)] + StraightWalk(StepToward(a, b), b)
  }

  /** The cells of the rectangle spanned by `a` and `b`. */
  predicate Between(a: Coord, b: Coord, x: Coord)
  {
    (a.col <= x.col <= b.col || b.col <= x.col <= a.col) &&
    (a.row <= x.row <= b.row || b.row <= x.row <= a.row)
  }

  /** On a grid without walls the L-shaped walk is a walk of Manhattan length between any two cells. */
  lemma {:induction false} StraightWalkIsWalk(cells: Cells, a: Coord, b: Coord)
    requires Rectangular(cells) && InBounds(cells, a) && InBounds(cells, b)
    requires forall c :: InBounds(cells, c) ==> !At(cells, c).solid
    ensures Walk(cells, a, StraightWalk(a, b)) && EndOf(a, StraightWalk(a, b)) == b
    decreases Manhattan(a, b)
  {
    if a != b {
      var n := StepToward(a, b);
      assert InBounds(cells, n);
      StraightWalkIsWalk(cells, n, b);
      assert StraightWalk(a, b)[1..] == StraightWalk(n, b);
    }
  }

  /** Without walls, the shortest distance between two cells is their Manhattan distance. */
  lemma OpenGridDistance(cells: Cells, a: Coord, b: Coord, p: seq<Coord>)
    requires Rectangular(cells) && InBounds(cells, a) && InBounds(cells, b)
    requires forall c :: InBounds(cells, c) ==> !At(cells, c).solid
    requires ShortestRoute(cells, a, b, p)
    ensures |p| == Manhattan(a, b)
  {
    StraightWalkIsWalk(cells, a, b);
    WalkLowerBound(cells, a, p);
  }
}
