/**
 * `findPath`: the search the algorithm names, run between two cells. What
 * every search guarantees is stated here once for all four: the path found
 * is a route, a path is found exactly when the goal is reachable (on a grid
 * whose search state is cleared), and every search but depth-first search
 * finds a shortest one.
 */
module Dispatch {
  import opened Types
  import opened GridModel
  import opened Adjacency
  import opened Walks
  import FrontierSearch
  import DijkstraSearch
  import AStarSearch
  import FrontierCorrectness
  import DijkstraCorrectness
  import AStarCorrectness

  /** A grid whose nodes kept their roles keeps its layout. */
  lemma RolesKeptLayout(a: Cells, b: Cells)
    requires Layout(a) && RolesKept(a, b)
    ensures Layout(b)
  {
    forall c | InBounds(a, c)
      ensures At(b, c).col == At(a, c).col && At(b, c).row == At(a, c).row
    {
      assert SameRole(At(a, c), At(b, c));
    }
    LayoutPointwise(a, b);
  }

  /** Every cell of a walk is walkable, so on the grid. */
  lemma {:induction false} WalkOnGrid(cells: Cells, from: Coord, w: seq<Coord>)
    requires Rectangular(cells)
    ensures Walk(cells, from, w) ==> forall x :: x in w ==> Open(cells, x)
    decreases |w|
  {
    if |w| > 0 && Walk(cells, from, w) {
      WalkOnGrid(cells, w[0], w[1..]);
      assert forall x :: x in w ==> x == w[0] || x in w[1..];
    }
  }

  // ---------------------------------------------------------------------
  // findPath
  // ---------------------------------------------------------------------

  /**
   * `findPath`: depth-first search for `dfs`, Dijkstra for `dijkstra`, A*
   * for `astar` and breadth-first search otherwise. Whichever runs, only
   * search state changes, and a path it returns is a route from the start
   * to the goal.
   */
  function FindPathOutcome(cells: Cells, start: Coord, goal: Coord, alg: AlgorithmId): (o: Outcome)
    requires Layout(cells) && InBounds(cells, start)
    ensures Layout(o.cells) && RolesKept(cells, o.cells)
    ensures o.path.Some? ==> Route(cells, start, goal, o.path.value)
  {
    match alg
    case Dfs =>
      var o := FrontierSearch.FrontierOutcome(cells, start, goal, FrontierSearch.Lifo);
      FrontierCorrectness.FrontierCorrect(cells, start, goal, FrontierSearch.Lifo);
      RolesKeptLayout(cells, o.cells);
      o
    case Dijkstra =>
      var o := DijkstraSearch.DijkstraOutcome(cells, start, goal);
      DijkstraCorrectness.DijkstraValid(cells, start, goal);
      RolesKeptLayout(cells, o.cells);
      o
    case AStar =>
      var o := AStarSearch.AStarOutcome(cells, start, goal);
      AStarCorrectness.AStarValid(cells, start, goal);
      RolesKeptLayout(cells, o.cells);
      o
    case Bfs =>
      var o := FrontierSearch.FrontierOutcome(cells, start, goal, FrontierSearch.Fifo);
      FrontierCorrectness.FrontierCorrect(cells, start, goal, FrontierSearch.Fifo);
      RolesKeptLayout(cells, o.cells);
      o
  }

  /**
   * On a grid whose search state is cleared, as `computePaths` leaves it
   * before each search, every algorithm finds a path exactly when the goal
   * is reachable, and every algorithm but depth-first search finds a
   * shortest one.
   */
  lemma FindPathComplete(cells: Cells, start: Coord, goal: Coord, alg: AlgorithmId)
    requires Layout(cells) && InBounds(cells, start) && SearchCleared(cells)
    ensures var o := FindPathOutcome(cells, start, goal, alg);
      (o.path.Some? <==> Reachable(cells, start, goal)) &&
      (o.path.Some? && alg != Dfs ==> ShortestRoute(cells, start, goal, o.path.value))
  {
    match alg
    case Dfs => FrontierCorrectness.DfsCorrect(cells, start, goal);
    case Dijkstra =>
      assert forall c :: InBounds(cells, c) && c != start ==> At(cells, c).distance == Inf;
      DijkstraCorrectness.DijkstraCorrect(cells, start, goal);
    case AStar => AStarCorrectness.AStarCorrect(cells, start, goal);
    case Bfs => FrontierCorrectness.BfsCorrect(cells, start, goal);
  }

  /** A search from a cell to itself returns the empty path. */
  lemma FindPathToItself(cells: Cells, start: Coord, alg: AlgorithmId)
    requires Layout(cells) && InBounds(cells, start) && SearchCleared(cells)
    ensures FindPathOutcome(cells, start, start, alg).path == Some([])
  {
    var none: seq<Coord> := [];
    assert Walk(cells, start, none) && EndOf(start, none) == start;
    FindPathComplete(cells, start, start, alg);
  }

  /**
   * On a grid without walls, A* (like breadth-first search and Dijkstra)
   * finds a path as long as the Manhattan distance between its ends.
   */
  lemma FindPathOpenGrid(cells: Cells, start: Coord, goal: Coord, alg: AlgorithmId)
    requires Layout(cells) && InBounds(cells, start) && InBounds(cells, goal) && SearchCleared(cells)
    requires forall c :: InBounds(cells, c) ==> !At(cells, c).solid
    requires alg != Dfs
    ensures var o := FindPathOutcome(cells, start, goal, alg);
      o.path.Some? && |o.path.value| == Manhattan(start, goal)
  {
    StraightWalkIsWalk(cells, start, goal);
    FindPathComplete(cells, start, goal, alg);
    var o := FindPathOutcome(cells, start, goal, alg);
    OpenGridDistance(cells, start, goal, o.path.value);
  }

  /** `findPath` on an in-place grid. */
  method FindPath(g: array2<Node>, start: Coord, goal: Coord, alg: AlgorithmId) returns (path: Option<seq<Coord>>)
    requires Layout(View(g)) && InBounds(View(g), start)
    modifies g
    ensures Outcome(path, View(g)) == FindPathOutcome(old(View(g)), start, goal, alg)
  {
    match alg
    case Dfs => path := FrontierSearch.Search(g, start, goal, FrontierSearch.Lifo);
    case Dijkstra => path := DijkstraSearch.Search(g, start, goal);
    case AStar => path := AStarSearch.Search(g, start, goal);
    case Bfs => path := FrontierSearch.Search(g, start, goal, FrontierSearch.Fifo);
  }

}
