/**
 * Breadth-first and depth-first search. Both keep a frontier of discovered
 * cells and a visited set that holds every cell ever put on the frontier;
 * they differ only in which end of the frontier the next cell is taken from
 * (`queue.shift()` against `stack.pop()`). Taking a cell marks it checked;
 * if it is the goal the path is read back from the parent links, otherwise
 * every walkable, unvisited neighbour gets the cell as its parent, is
 * marked open, visited and pushed.
 *
 * `Explore` states one run as a function of the grid the search starts
 * from; `Search` is the in-place loop, proved to leave the grid and return
 * the path `Explore` describes.
 */
module FrontierSearch {
  import opened Types
  import opened GridModel
  import opened Adjacency
  import opened Walks
  import opened PathReconstruction

  /** Which end of the frontier is taken next: the front (breadth-first) or the back (depth-first). */
  datatype Discipline = Fifo | Lifo

  /** The cell taken off a non-empty frontier. */
  function Next(frontier: seq<Coord>, disc: Discipline): Coord
    requires |frontier| > 0
  {
    if disc == Fifo then frontier[0] else frontier[|frontier| - 1]
  }

  /** The frontier once `Next` is taken off. */
  function Rest(frontier: seq<Coord>, disc: Discipline): (r: seq<Coord>)
    requires |frontier| > 0
    ensures |r| == |frontier| - 1
    ensures forall x :: x in frontier <==> x == Next(frontier, disc) || x in r
  {
    if disc == Fifo then frontier[1..] else frontier[..|frontier| - 1]
  }

  /** The grid, frontier and visited set while the neighbours of one cell are scanned. */
  datatype Sweep = Sweep(cells: Cells, frontier: seq<Coord>, visited: set<Coord>)

  /** `node.checked = true`. */
  function Checked(cells: Cells, c: Coord): (r: Cells)
    requires Rectangular(cells) && InBounds(cells, c)
    ensures RolesKept(cells, r)
  {
    Put(cells, c, At(cells, c).(checked := true))
  }

  /**
   * The scan of `current`'s neighbours `nbrs`: a neighbour that is a wall or
   * already visited is skipped; any other gets `current` as its parent, is
   * marked open, added to the visited set and pushed.
   */
  function Discover(current: Coord, nbrs: seq<Coord>, s: Sweep): (r: Sweep)
    requires Rectangular(s.cells)
    decreases |nbrs|
  {
    if |nbrs| == 0 then s
    else if !Open(s.cells, nbrs[0]) || nbrs[0] in s.visited then Discover(current, nbrs[1..], s)
    else
      var nb := nbrs[0];
      Discover(current, nbrs[1..],
        Sweep(Put(s.cells, nb, At(s.cells, nb).(parent := Some(current), open := true)),
              s.frontier + [nb], s.visited + {nb}))
  }

  /** The neighbours a scan takes: listed, walkable, and not yet visited. */
  function Taken(cells: Cells, nbrs: seq<Coord>, visited: set<Coord>): (t: set<Coord>)
    requires Rectangular(cells)
    ensures forall x {:trigger x in t} :: x in t <==> x in nbrs && Open(cells, x) && x !in visited
  {
    set x | x in nbrs && Open(cells, x) && x !in visited
  }

  /** Replacing a node by one with the same wall flag leaves walkability everywhere as it was. */
  lemma PutKeepsOpen(cells: Cells, c: Coord, n: Node)
    requires Rectangular(cells) && InBounds(cells, c) && n.solid == At(cells, c).solid
    ensures forall x :: Open(Put(cells, c, n), x) == Open(cells, x)
  {
    var r := Put(cells, c, n);
    forall x
      ensures Open(r, x) == Open(cells, x)
    {
      if InBounds(cells, x) {
        assert At(r, x).solid == At(cells, x).solid;
      }
    }
  }

  /** The neighbours taken from a list: its head when that is taken, then those taken from its tail. */
  lemma TakenStep(cells: Cells, nbrs: seq<Coord>, visited: set<Coord>)
    requires Rectangular(cells) && |nbrs| > 0
    ensures !Open(cells, nbrs[0]) || nbrs[0] in visited ==>
      Taken(cells, nbrs, visited) == Taken(cells, nbrs[1..], visited)
    ensures Open(cells, nbrs[0]) && nbrs[0] !in visited ==>
      Taken(cells, nbrs, visited) == Taken(cells, nbrs[1..], visited + {nbrs[0]}) + {nbrs[0]}
  {
    assert forall x :: x in nbrs <==> x == nbrs[0] || x in nbrs[1..];
  }

  /**
   * What a scan does to the grid and the visited set: it visits exactly the
   * neighbours it takes and gives exactly them the scanned cell as parent
   * and the open mark; nothing else changes.
   */
  lemma {:induction false} DiscoverCells(current: Coord, nbrs: seq<Coord>, s: Sweep)
    requires Rectangular(s.cells)
    ensures var r := Discover(current, nbrs, s);
      var t := Taken(s.cells, nbrs, s.visited);
      Rectangular(r.cells) && SameShape(r.cells, s.cells) &&
      (Layout(s.cells) ==> Layout(r.cells)) &&
      r.visited == s.visited + t &&
      forall c {:trigger At(r.cells, c)} :: InBounds(s.cells, c) ==>
        At(r.cells, c) == if c in t then At(s.cells, c).(parent := Some(current), open := true) else At(s.cells, c)
    decreases |nbrs|
  {
    if |nbrs| > 0 {
      var nb := nbrs[0];
      TakenStep(s.cells, nbrs, s.visited);
      if !Open(s.cells, nb) || nb in s.visited {
        DiscoverCells(current, nbrs[1..], s);
      } else {
        var n := At(s.cells, nb).(parent := Some(current), open := true);
        var s' := Sweep(Put(s.cells, nb, n), s.frontier + [nb], s.visited + {nb});
        PutKeepsOpen(s.cells, nb, n);
        assert Taken(s'.cells, nbrs[1..], s'.visited) == Taken(s.cells, nbrs[1..], s'.visited);
        DiscoverCells(current, nbrs[1..], s');
      }
    }
  }

  /**
   * What a scan does to the frontier: it appends the neighbours it takes,
   * each of them, and nothing else.
   */
  lemma {:induction false} DiscoverFrontier(current: Coord, nbrs: seq<Coord>, s: Sweep)
    requires Rectangular(s.cells)
    ensures var r := Discover(current, nbrs, s);
      var t := Taken(s.cells, nbrs, s.visited);
      |s.frontier| <= |r.frontier| && r.frontier[..|s.frontier|] == s.frontier &&
      (forall i :: |s.frontier| <= i < |r.frontier| ==> r.frontier[i] in t) &&
      (forall x :: x in t ==> x in r.frontier) &&
      s.visited <= r.visited && (r.visited == s.visited ==> r.frontier == s.frontier)
    decreases |nbrs|
  {
    if |nbrs| > 0 {
      var nb := nbrs[0];
      TakenStep(s.cells, nbrs, s.visited);
      if !Open(s.cells, nb) || nb in s.visited {
        DiscoverFrontier(current, nbrs[1..], s);
      } else {
        var n := At(s.cells, nb).(parent := Some(current), open := true);
        var s' := Sweep(Put(s.cells, nb, n), s.frontier + [nb], s.visited + {nb});
        PutKeepsOpen(s.cells, nb, n);
        assert Taken(s'.cells, nbrs[1..], s'.visited) == Taken(s.cells, nbrs[1..], s'.visited);
        DiscoverFrontier(current, nbrs[1..], s');
        var r := Discover(current, nbrs[1..], s');
        assert r.frontier[..|s.frontier|] == (r.frontier[..|s'.frontier|])[..|s.frontier|];
        assert r.frontier[|s.frontier|] == nb;
      }
    }
  }

  /** Search depth of the cells visited after scanning `current`: the old depth, or one more than `current`'s. */
  ghost function Deepen(depth: map<Coord, nat>, visited: set<Coord>, current: Coord): (d: map<Coord, nat>)
    requires current in depth
    ensures d.Keys == visited
    ensures forall x {:trigger d[x]} :: x in d ==> d[x] == if x in depth then depth[x] else depth[current] + 1
  {
    map x | x in visited :: if x in depth then depth[x] else depth[current] + 1
  }

  /**
   * What holds before each step of a search: the grid keeps its layout, the
   * start is visited, the frontier lies within the visited cells, which lie
   * on the grid, and the parent links of the visited cells form a search
   * tree with `depth` as the ranking.
   */
  ghost predicate Searching(cells: Cells, frontier: seq<Coord>, visited: set<Coord>, start: Coord, depth: map<Coord, nat>)
  {
    Layout(cells) && start in visited && visited <= CellsOf(cells) &&
    (forall x {:trigger x in frontier} :: x in frontier ==> x in visited) &&
    depth.Keys == visited && ParentTree(cells, start, depth)
  }

  /** Marking the taken cell checked keeps the search tree. */
  lemma CheckedKeeps(cells: Cells, frontier: seq<Coord>, visited: set<Coord>, start: Coord,
                     depth: map<Coord, nat>, disc: Discipline)
    requires Searching(cells, frontier, visited, start, depth) && |frontier| > 0
    ensures var c := Next(frontier, disc);
      InBounds(cells, c) && c in depth &&
      Searching(Checked(cells, c), Rest(frontier, disc), visited, start, depth)
  {
    var c := Next(frontier, disc);
    assert c in frontier;
    var r := Checked(cells, c);
    assert At(cells, c).col == c.col && At(cells, c).row == c.row;
    assert Layout(r);
    assert Cols(r) == Cols(cells) && Rows(r) == Rows(cells);
    assert CellsOf(r) == CellsOf(cells);
    ParentTreeFrame(cells, r, start, depth);
  }

  /**
   * Scanning the neighbours of a visited cell keeps the search tree, with
   * the newly visited cells one level below it, and either visits a new
   * cell or leaves the frontier as it was.
   */
  lemma {:induction false} ScanKeeps(cells: Cells, current: Coord, rest: seq<Coord>, visited: set<Coord>, start: Coord,
                  depth: map<Coord, nat>)
    requires Searching(cells, rest, visited, start, depth) && current in visited
    ensures var s := Discover(current, Neighbors(cells, current), Sweep(cells, rest, visited));
      current in depth &&
      Searching(s.cells, s.frontier, s.visited, start, Deepen(depth, s.visited, current)) &&
      CellsOf(s.cells) == CellsOf(cells) && visited <= s.visited &&
      (s.visited == visited ==> s.frontier == rest)
  {
    var nbrs := Neighbors(cells, current);
    var s0 := Sweep(cells, rest, visited);
    var s := Discover(current, nbrs, s0);
    var t := Taken(cells, nbrs, visited);
    var d := Deepen(depth, s.visited, current);
    DiscoverCells(current, nbrs, s0);
    DiscoverFrontier(current, nbrs, s0);
    assert CellsOf(s.cells) == CellsOf(cells);
    assert ParentTree(s.cells, start, d) by {
      TreeGrows(cells, s.cells, current, t, start, depth, d);
    }
  }

  /**
   * Giving a set `t` of walkable, unranked neighbours of a ranked cell that
   * cell as parent extends a search tree by one level.
   */
  lemma TreeGrows(cells: Cells, next: Cells, current: Coord, t: set<Coord>, start: Coord,
                  depth: map<Coord, nat>, d: map<Coord, nat>)
    requires Rectangular(cells) && Rectangular(next) && SameShape(next, cells)
    requires ParentTree(cells, start, depth) && current in depth
    requires forall x {:trigger x in t} :: x in t ==> x !in depth && Open(cells, x) && Adjacent(current, x)
    requires d.Keys == depth.Keys + t
    requires forall x {:trigger d[x]} :: x in d ==> d[x] == if x in depth then depth[x] else depth[current] + 1
    requires forall c {:trigger At(next, c)} :: InBounds(cells, c) ==>
      At(next, c) == if c in t then At(cells, c).(parent := Some(current), open := true) else At(cells, c)
    ensures ParentTree(next, start, d)
  {
    forall c | c in d && c != start
      ensures InBounds(next, c) && Open(next, c) && ParentOf(next, c).Some? &&
        ParentOf(next, c).value in d && Adjacent(ParentOf(next, c).value, c) &&
        d[c] == d[ParentOf(next, c).value] + 1
    {
      assert InBounds(cells, c);
      if c in t {
        assert At(next, c).parent == Some(current);
      } else {
        assert At(next, c) == At(cells, c);
        assert ParentOf(next, c) == ParentOf(cells, c);
      }
    }
  }

  lemma {:induction false} SubsetSize(a: set<Coord>, b: set<Coord>)
    requires a <= b
    ensures |a| <= |b|
    decreases |a|
  {
    if a != {} {
      var x :| x in a;
      SubsetSize(a - {x}, b - {x});
    }
  }

  /** Visiting more cells of a grid leaves fewer of them unvisited. */
  lemma FewerLeft(all: set<Coord>, visited: set<Coord>, more: set<Coord>)
    requires visited <= more <= all && visited != more
    ensures |all - more| < |all - visited|
  {
    var x :| x in more && x !in visited;
    SubsetSize(all - more, all - visited - {x});
  }

  /**
   * A run of the search from the given frontier: the outcome the engine
   * reaches, with `None` for the `null` it returns when the frontier runs out.
   * `depth` ranks the visited cells for the path read-back.
   */
  function Explore(cells: Cells, frontier: seq<Coord>, visited: set<Coord>, start: Coord, goal: Coord,
                   disc: Discipline, ghost depth: map<Coord, nat>): (o: Outcome)
    requires Searching(cells, frontier, visited, start, depth)
    decreases |CellsOf(cells) - visited|, |frontier|
  {
    if |frontier| == 0 then Outcome(None, cells)
    else
      var current := Next(frontier, disc);
      CheckedKeeps(cells, frontier, visited, start, depth, disc);
      if current == goal then
        var marked := Checked(cells, current);
        Outcome(Some(Chain(marked, Some(goal), start, depth)), marked)
      else
        var s := Turn(cells, frontier, visited, disc);
        ScanKeeps(Checked(cells, current), current, Rest(frontier, disc), visited, start, depth);
        assert s.visited != visited ==> |CellsOf(cells) - s.visited| < |CellsOf(cells) - visited| by {
          if s.visited != visited {
            FewerLeft(CellsOf(cells), visited, s.visited);
          }
        }
        Explore(s.cells, s.frontier, s.visited, start, goal, disc, Deepen(depth, s.visited, current))
  }

  /**
   * One turn that does not reach the goal: the next cell is taken off the
   * frontier and marked checked, and its neighbours are scanned.
   */
  function Turn(cells: Cells, frontier: seq<Coord>, visited: set<Coord>, disc: Discipline): Sweep
    requires Rectangular(cells) && |frontier| > 0 && InBounds(cells, Next(frontier, disc))
  {
    var current := Next(frontier, disc);
    var marked := Checked(cells, current);
    Discover(current, Neighbors(marked, current), Sweep(marked, Rest(frontier, disc), visited))
  }

  /** `bfs(grid, start, goal)` (with `Fifo`) and `dfs(grid, start, goal)` (with `Lifo`). */
  function FrontierOutcome(cells: Cells, start: Coord, goal: Coord, disc: Discipline): (o: Outcome)
    requires Layout(cells) && InBounds(cells, start)
  {
    Explore(cells, [start], {start}, start, goal, disc, map[start := 0])
  }

  /** The in-place scan of `current`'s neighbours, each of which is on the grid. */
  method Scan(g: array2<Node>, current: Coord, nbrs: seq<Coord>, frontier: seq<Coord>, visited: set<Coord>)
    returns (frontier': seq<Coord>, visited': set<Coord>)
    requires forall i :: 0 <= i < |nbrs| ==> InBounds(View(g), nbrs[i])
    modifies g
    ensures Sweep(View(g), frontier', visited') == Discover(current, nbrs, Sweep(old(View(g)), frontier, visited))
  {
    ghost var s0 := Sweep(View(g), frontier, visited);
    frontier', visited' := frontier, visited;
    for k := 0 to |nbrs|
      invariant SameShape(View(g), s0.cells)
      invariant Discover(current, nbrs[k..], Sweep(View(g), frontier', visited')) == Discover(current, nbrs, s0)
    {
      var nb := nbrs[k];
      assert nbrs[k..][0] == nb && nbrs[k..][1..] == nbrs[k + 1..];
      assert InBounds(View(g), nb);
      if g[nb.col, nb.row].solid || nb in visited' {
      } else {
        Store(g, nb, g[nb.col, nb.row].(parent := Some(current), open := true));
        frontier' := frontier' + [nb];
        visited' := visited' + {nb};
      }
    }
    assert nbrs[|nbrs|..] == [];
  }

  /**
   * One turn of the search loop in place: takes the next cell off the
   * frontier and marks it checked; at the goal it returns the path,
   * otherwise it scans the cell's neighbours. Either way the rest of the
   * run is the run `Explore` describes from where the turn began.
   */
  method Step(g: array2<Node>, frontier: seq<Coord>, visited: set<Coord>, start: Coord, goal: Coord,
              disc: Discipline, ghost depth: map<Coord, nat>)
    returns (path: Option<seq<Coord>>, frontier': seq<Coord>, visited': set<Coord>, ghost depth': map<Coord, nat>)
    requires Searching(View(g), frontier, visited, start, depth) && |frontier| > 0
    modifies g
    ensures path.Some? ==> Outcome(path, View(g)) == Explore(old(View(g)), frontier, visited, start, goal, disc, depth)
    ensures path.None? ==>
      Searching(View(g), frontier', visited', start, depth') &&
      Explore(View(g), frontier', visited', start, goal, disc, depth') ==
        Explore(old(View(g)), frontier, visited, start, goal, disc, depth) &&
      CellsOf(View(g)) == CellsOf(old(View(g))) && visited <= visited' &&
      (visited' == visited ==> |frontier'| < |frontier|)
  {
    ghost var before := View(g);
    CheckedKeeps(before, frontier, visited, start, depth, disc);
    var current;
    if disc == Fifo {
      current := frontier[0];
      frontier' := frontier[1..];
    } else {
      current := frontier[|frontier| - 1];
      frontier' := frontier[..|frontier| - 1];
    }
    Store(g, current, g[current.col, current.row].(checked := true));
    ghost var marked := View(g);
    assert marked == Checked(before, current);
    if current == goal {
      var p := ReconstructPath(g, goal, start, depth);
      return Some(p), frontier', visited, depth;
    }
    var nbrs := Neighbors(View(g), current);
    ghost var s := Discover(current, nbrs, Sweep(marked, frontier', visited));
    ScanKeeps(marked, current, frontier', visited, start, depth);
    assert forall i :: 0 <= i < |nbrs| ==> InBounds(marked, nbrs[i]) by {
      forall i | 0 <= i < |nbrs|
        ensures InBounds(marked, nbrs[i])
      {
        assert nbrs[i] in nbrs;
      }
    }
    frontier', visited' := Scan(g, current, nbrs, frontier', visited);
    depth' := Deepen(depth, visited', current);
    path := None;
  }

  /** The in-place search: `bfs` with `Fifo`, `dfs` with `Lifo`. */
  method Search(g: array2<Node>, start: Coord, goal: Coord, disc: Discipline) returns (path: Option<seq<Coord>>)
    requires Layout(View(g)) && InBounds(View(g), start)
    modifies g
    ensures Outcome(path, View(g)) == FrontierOutcome(old(View(g)), start, goal, disc)
  {
    var frontier := [start];
    var visited := {start};
    ghost var depth := map[start := 0];
    assert Searching(View(g), frontier, visited, start, depth);
    while |frontier| > 0
      invariant Searching(View(g), frontier, visited, start, depth)
      invariant Explore(View(g), frontier, visited, start, goal, disc, depth) ==
        FrontierOutcome(old(View(g)), start, goal, disc)
      decreases |CellsOf(View(g)) - visited|, |frontier|
    {
      ghost var cellsBefore := CellsOf(View(g));
      ghost var visitedBefore := visited;
      path, frontier, visited, depth := Step(g, frontier, visited, start, goal, disc, depth);
      if path.Some? {
        return;
      }
      if visited != visitedBefore {
        FewerLeft(cellsBefore, visitedBefore, visited);
      }
    }
    return None;
  }
}
