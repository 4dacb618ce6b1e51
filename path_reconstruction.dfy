/**
 * `reconstructPath`: following parent links back from the goal until the
 * start (or a cell without a parent) is reached. Termination rests on a
 * ranking of the cells the links pass through: each link leads to a cell of
 * strictly smaller rank. The searches supply the ranking (search depth,
 * Dijkstra distance, A* cost so far).
 */
module PathReconstruction {
  import opened Types
  import opened GridModel
  import opened Adjacency
  import opened Walks

  /** `node.parent`. */
  function ParentOf(cells: Cells, c: Coord): Option<Coord>
    requires Rectangular(cells) && InBounds(cells, c)
  {
    At(cells, c).parent
  }

  /**
   * Every ranked cell is on the grid, and the parent of every ranked cell
   * other than the start, when it has one, is ranked strictly lower.
   */
  ghost predicate Ranked(cells: Cells, start: Coord, rank: map<Coord, nat>)
    requires Rectangular(cells)
  {
    (forall c {:trigger c in rank} :: c in rank ==> InBounds(cells, c)) &&
    forall c {:trigger ParentOf(cells, c)} :: c in rank && c != start && ParentOf(cells, c).Some? ==>
      ParentOf(cells, c).value in rank && rank[ParentOf(cells, c).value] < rank[c]
  }

  /**
   * The cells from `current` back to (and excluding) `start`, listed from
   * the start's side: what `reconstructPath` returns when it begins at `current`.
   */
  function Chain(cells: Cells, current: Option<Coord>, start: Coord, ghost rank: map<Coord, nat>): (p: seq<Coord>)
    requires Rectangular(cells) && Ranked(cells, start, rank)
    requires current.Some? ==> current.value in rank
    ensures forall x :: x in p ==> x in rank && x != start
    ensures |p| > 0 ==> current.Some? && p[|p| - 1] == current.value
    decreases if current.Some? then rank[current.value] + 1 else 0
  {
    if current.None? || current.value == start then []
    else Chain(cells, ParentOf(cells, current.value), start, rank) + [current.value]
  }

  /**
   * A search tree rooted at `start`: every ranked cell other than the start
   * is open, and its parent is a ranked, adjacent cell whose rank is exactly
   * one less.
   */
  ghost predicate ParentTree(cells: Cells, start: Coord, rank: map<Coord, nat>)
    requires Rectangular(cells)
  {
    start in rank && rank[start] == 0 &&
    (forall c {:trigger c in rank} :: c in rank ==> InBounds(cells, c)) &&
    forall c {:trigger ParentOf(cells, c)} :: c in rank && c != start ==>
      Open(cells, c) && ParentOf(cells, c).Some? && ParentOf(cells, c).value in rank &&
      Adjacent(ParentOf(cells, c).value, c) && rank[c] == rank[ParentOf(cells, c).value] + 1
  }

  /** A search tree is ranked. */
  lemma TreeRanked(cells: Cells, start: Coord, rank: map<Coord, nat>)
    requires Rectangular(cells) && ParentTree(cells, start, rank)
    ensures Ranked(cells, start, rank)
  {
  }

  /** A search tree depends only on the parent links and the walls. */
  lemma ParentTreeFrame(a: Cells, b: Cells, start: Coord, rank: map<Coord, nat>)
    requires Rectangular(a) && Rectangular(b) && SameShape(a, b)
    requires forall c {:trigger At(b, c)} :: InBounds(a, c) ==> At(a, c).parent == At(b, c).parent && At(a, c).solid == At(b, c).solid
    requires ParentTree(a, start, rank)
    ensures ParentTree(b, start, rank)
  {
    forall c | c in rank && c != start
      ensures Open(b, c) && ParentOf(b, c) == ParentOf(a, c)
    {
      assert InBounds(a, c) && ParentOf(a, c).Some? && Open(a, c);
      assert At(b, c).parent == At(a, c).parent && At(b, c).solid == At(a, c).solid;
    }
  }

  /**
   * Relinking the cells `t`, walkable neighbours of the ranked cell
   * `current`, to `current` with rank one more than its own keeps a search
   * tree, provided no other ranked cell has its parent in `t` (so their
   * ranks stay valid).
   */
  lemma RelinkedTree(cells: Cells, next: Cells, current: Coord, t: set<Coord>, start: Coord,
                      known: set<Coord>, d: map<Coord, nat>, d': map<Coord, nat>)
    requires Rectangular(cells) && Rectangular(next) && SameShape(next, cells)
    requires ParentTree(cells, start, d) && d.Keys == known && current in known && current !in t && start !in t
    requires forall c {:trigger ParentOf(cells, c)} :: c in known && c != start ==> ParentOf(cells, c).value !in t
    requires forall x {:trigger x in t} :: x in t ==> Open(cells, x) && Adjacent(current, x)
    requires d'.Keys == known + t
    requires forall x {:trigger d'[x]} :: x in d' ==> d'[x] == if x in t then d[current] + 1 else d[x]
    requires forall c {:trigger ParentOf(next, c)} :: InBounds(cells, c) ==>
      ParentOf(next, c) == if c in t then Some(current) else ParentOf(cells, c)
    requires forall c {:trigger Open(next, c)} :: Open(next, c) == Open(cells, c)
    ensures ParentTree(next, start, d')
  {
    forall c | c in d' && c != start
      ensures InBounds(next, c) && Open(next, c) && ParentOf(next, c).Some? &&
        ParentOf(next, c).value in d' && Adjacent(ParentOf(next, c).value, c) &&
        d'[c] == d'[ParentOf(next, c).value] + 1
    {
      assert InBounds(cells, c);
      if c !in t {
        assert ParentOf(next, c) == ParentOf(cells, c);
      }
    }
  }

  /**
   * In a search tree the reconstructed path from a ranked cell is a route
   * from the start to that cell, and it has exactly as many steps as the
   * cell's rank.
   */
  lemma {:induction false} ChainIsRoute(cells: Cells, start: Coord, rank: map<Coord, nat>, goal: Coord)
    requires Rectangular(cells) && ParentTree(cells, start, rank) && goal in rank
    ensures Route(cells, start, goal, Chain(cells, Some(goal), start, rank))
    ensures |Chain(cells, Some(goal), start, rank)| == rank[goal]
    decreases rank[goal]
  {
    TreeRanked(cells, start, rank);
    if goal != start {
      var p := ParentOf(cells, goal).value;
      ChainIsRoute(cells, start, rank, p);
      var prefix := Chain(cells, Some(p), start, rank);
      assert Chain(cells, Some(goal), start, rank) == prefix + [goal];
      WalkAppend(cells, start, prefix, goal);
    }
  }

  /** `reconstructPath`: walks the parent links back from `end`, prepending each cell. */
  method ReconstructPath(g: array2<Node>, end: Coord, start: Coord, ghost rank: map<Coord, nat>)
    returns (path: seq<Coord>)
    requires Ranked(View(g), start, rank) && end in rank
    ensures path == Chain(View(g), Some(end), start, rank)
  {
    path := [];
    var current: Option<Coord> := Some(end);
    while current.Some? && current.value != start
      invariant current.Some? ==> current.value in rank
      invariant Chain(View(g), current, start, rank) + path == Chain(View(g), Some(end), start, rank)
      decreases if current.Some? then rank[current.value] + 1 else 0
    {
      var c := current.value;
      path := [c] + path;
      current := g[c.col, c.row].parent;
    }
  }
}
