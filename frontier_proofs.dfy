/**
 * What breadth-first and depth-first search guarantee. Both find a path
 * exactly when the goal can be reached from the start, every path they
 * return is a route of adjacent, walkable cells, and the one breadth-first
 * search returns is as short as any walk to the goal. A search changes
 * only the search state of the nodes.
 *
 * The proof follows `Explore` turn by turn with the set `popped` of cells
 * already taken off the frontier and scanned.
 */
module FrontierCorrectness {
  import opened Types
  import opened GridModel
  import opened Adjacency
  import opened Walks
  import opened PathReconstruction
  import opened FrontierSearch

  /** A scan changes only parent links and open marks. */
  lemma DiscoverRoles(current: Coord, nbrs: seq<Coord>, s: Sweep)
    requires Rectangular(s.cells)
    ensures RolesKept(s.cells, Discover(current, nbrs, s).cells)
  {
    DiscoverCells(current, nbrs, s);
    var r := Discover(current, nbrs, s);
    forall c | InBounds(s.cells, c)
      ensures SameRole(At(s.cells, c), At(r.cells, c)) && At(s.cells, c).baseLabel == At(r.cells, c).baseLabel
    {
      assert InBounds(r.cells, c);
    }
  }

  /**
   * The frontier of a breadth-first search is ordered by depth and spans at
   * most two consecutive depths, and no cell already taken off it is deeper
   * than its first cell.
   */
  ghost predicate Layered(frontier: seq<Coord>, depth: map<Coord, nat>, popped: set<Coord>)
  {
    (forall i {:trigger frontier[i]} :: 0 <= i < |frontier| ==> frontier[i] in depth) &&
    (forall u {:trigger u in popped} :: u in popped ==> u in depth) &&
    (forall i, j {:trigger frontier[i], frontier[j]} :: 0 <= i <= j < |frontier| ==>
      depth[frontier[i]] <= depth[frontier[j]]) &&
    (|frontier| > 0 ==>
      (forall i {:trigger frontier[i]} :: 0 <= i < |frontier| ==> depth[frontier[i]] <= depth[frontier[0]] + 1) &&
      (forall u {:trigger u in popped} :: u in popped ==> depth[u] <= depth[frontier[0]]))
  }

  /** Every cell of a layered frontier is at the depth of its first cell or one deeper. */
  lemma LayeredBounds(frontier: seq<Coord>, depth: map<Coord, nat>, popped: set<Coord>, x: Coord)
    requires Layered(frontier, depth, popped) && x in frontier
    ensures x in depth && depth[frontier[0]] <= depth[x] <= depth[frontier[0]] + 1
  {
    var j :| 0 <= j < |frontier| && frontier[j] == x;
    assert depth[frontier[0]] <= depth[frontier[j]];
  }

  /**
   * Taking the first cell off a layered frontier and appending cells one
   * level deeper than it keeps the frontier layered.
   */
  lemma LayeredStep(f: seq<Coord>, nf: seq<Coord>, depth: map<Coord, nat>, d: map<Coord, nat>, popped: set<Coord>)
    requires |f| > 0 && Layered(f, depth, popped)
    requires |f| - 1 <= |nf| && nf[..|f| - 1] == f[1..]
    requires forall i :: |f| - 1 <= i < |nf| ==> nf[i] in d && d[nf[i]] == depth[f[0]] + 1
    requires forall x {:trigger x in depth} :: x in depth ==> x in d && d[x] == depth[x]
    ensures Layered(nf, d, popped + {f[0]})
  {
    var k := depth[f[0]];
    var m := |f| - 1;
    forall i | 0 <= i < |nf|
      ensures nf[i] in d && k <= d[nf[i]] <= k + 1 && (i < m ==> d[nf[i]] == depth[f[i + 1]])
    {
      if i < m {
        assert nf[i] == f[1..][i] == f[i + 1];
        assert depth[f[0]] <= depth[f[i + 1]];
      }
    }
    forall i, j | 0 <= i <= j < |nf|
      ensures d[nf[i]] <= d[nf[j]]
    {
      if j < m {
        assert depth[f[i + 1]] <= depth[f[j + 1]];
      }
    }
  }

  /**
   * What a search has established about the cells it has taken off the
   * frontier (`popped`), on the grid `base` it started from: the goal is not
   * among them, every visited cell is either among them or on the frontier,
   * and every walkable neighbour of one of them has been visited (for
   * breadth-first search at a depth at most one more, with a layered frontier).
   */
  ghost predicate Covered(base: Cells, frontier: seq<Coord>, visited: set<Coord>, popped: set<Coord>, goal: Coord,
                          depth: map<Coord, nat>, disc: Discipline)
    requires Rectangular(base)
  {
    popped <= visited && goal !in popped &&
    (forall x {:trigger x in visited} :: x in visited ==> x in popped || x in frontier) &&
    (forall u, x {:trigger Adjacent(u, x)} :: u in popped && Adjacent(u, x) && Open(base, x) ==>
      x in visited && (disc == Fifo ==> u in depth && x in depth && depth[x] <= depth[u] + 1)) &&
    (disc == Fifo ==> Layered(frontier, depth, popped))
  }

  /**
   * The effect of a turn that `Covered` depends on: the rest of the frontier
   * stays at the front of the new frontier `nf`, behind it come only newly
   * visited cells, every newly visited cell is on it, and every walkable
   * neighbour of the turn's cell is now visited.
   */
  ghost predicate Grows(base: Cells, frontier: seq<Coord>, visited: set<Coord>, disc: Discipline,
                        nf: seq<Coord>, nv: set<Coord>)
    requires Rectangular(base) && |frontier| > 0
  {
    var rest := Rest(frontier, disc);
    |rest| <= |nf| && nf[..|rest|] == rest &&
    (forall i :: |rest| <= i < |nf| ==> nf[i] in nv && nf[i] !in visited) &&
    visited <= nv && (forall x {:trigger x in nv} :: x in nv && x !in visited ==> x in nf) &&
    (forall x {:trigger Open(base, x)} :: Adjacent(Next(frontier, disc), x) && Open(base, x) ==> x in nv)
  }

  /** A turn that grows the search as `Grows` says, and does not take the goal, keeps `Covered`. */
  lemma CoveredAfter(base: Cells, frontier: seq<Coord>, visited: set<Coord>, popped: set<Coord>, goal: Coord,
                     depth: map<Coord, nat>, disc: Discipline, nf: seq<Coord>, nv: set<Coord>)
    requires Rectangular(base) && Covered(base, frontier, visited, popped, goal, depth, disc)
    requires |frontier| > 0 && Next(frontier, disc) != goal
    requires depth.Keys == visited && forall x {:trigger x in frontier} :: x in frontier ==> x in visited
    requires Grows(base, frontier, visited, disc, nf, nv)
    ensures Next(frontier, disc) in depth &&
      Covered(base, nf, nv, popped + {Next(frontier, disc)}, goal, Deepen(depth, nv, Next(frontier, disc)), disc)
  {
    var c := Next(frontier, disc);
    var rest := Rest(frontier, disc);
    var popped' := popped + {c};
    assert c in frontier;
    var d := Deepen(depth, nv, c);
    forall x | x in nv
      ensures x in popped' || x in nf
    {
      if x in visited && x !in popped && x != c {
        assert x in rest;
        var i :| 0 <= i < |rest| && rest[i] == x;
        assert nf[..|rest|][i] == x;
      }
    }
    forall u, x | u in popped' && Adjacent(u, x) && Open(base, x)
      ensures x in nv && (disc == Fifo ==> u in d && x in d && d[x] <= d[u] + 1)
    {
      if u == c && disc == Fifo && x in visited {
        if x in popped {
          assert depth[x] <= depth[frontier[0]];
        } else {
          LayeredBounds(frontier, depth, popped, x);
        }
      }
    }
    if disc == Fifo {
      assert rest == frontier[1..];
      LayeredStep(frontier, nf, depth, d, popped);
    }
  }

  /**
   * What one turn does, in the terms `CoveredAfter` needs: the rest of the
   * frontier stays at its front, behind it come exactly the newly visited
   * cells, every walkable neighbour of the turn's cell ends up visited, and
   * only search state changes.
   */
  lemma TurnEffect(base: Cells, cells: Cells, frontier: seq<Coord>, visited: set<Coord>, start: Coord,
                   depth: map<Coord, nat>, disc: Discipline)
    requires Searching(cells, frontier, visited, start, depth) && |frontier| > 0
    requires RolesKept(base, cells)
    ensures var c := Next(frontier, disc);
      InBounds(cells, c) && c in depth &&
      var s := Turn(cells, frontier, visited, disc);
      RolesKept(base, s.cells) && Grows(base, frontier, visited, disc, s.frontier, s.visited)
  {
    var c := Next(frontier, disc);
    CheckedKeeps(cells, frontier, visited, start, depth, disc);
    var marked := Checked(cells, c);
    var nbrs := Neighbors(marked, c);
    var s0 := Sweep(marked, Rest(frontier, disc), visited);
    var s := Discover(c, nbrs, s0);
    DiscoverCells(c, nbrs, s0);
    DiscoverFrontier(c, nbrs, s0);
    DiscoverRoles(c, nbrs, s0);
    RolesKeptTrans(base, cells, marked);
    RolesKeptTrans(base, marked, s.cells);
    RolesKeptOpen(base, marked);
    forall x | Adjacent(c, x) && Open(base, x)
      ensures x in s.visited
    {
      assert Open(marked, x);
      assert x in nbrs;
    }
  }

  /** A turn that does not reach the goal keeps `Covered`, with the turn's cell popped. */
  lemma CoveredStep(base: Cells, cells: Cells, frontier: seq<Coord>, visited: set<Coord>, popped: set<Coord>,
                    start: Coord, goal: Coord, depth: map<Coord, nat>, disc: Discipline)
    requires Searching(cells, frontier, visited, start, depth) && |frontier| > 0
    requires RolesKept(base, cells)
    requires Covered(base, frontier, visited, popped, goal, depth, disc)
    requires Next(frontier, disc) != goal
    ensures var c := Next(frontier, disc);
      InBounds(cells, c) && c in depth &&
      var s := Turn(cells, frontier, visited, disc);
      RolesKept(base, s.cells) &&
      Covered(base, s.frontier, s.visited, popped + {c}, goal, Deepen(depth, s.visited, c), disc)
  {
    var c := Next(frontier, disc);
    TurnEffect(base, cells, frontier, visited, start, depth, disc);
    var s := Turn(cells, frontier, visited, disc);
    CoveredAfter(base, frontier, visited, popped, goal, depth, disc, s.frontier, s.visited);
  }

  /**
   * Every run of `Explore` from a state satisfying `Covered` is sound on the
   * grid the search started from.
   */
  lemma {:induction false} ExploreCorrect(base: Cells, cells: Cells, frontier: seq<Coord>, visited: set<Coord>,
                                          popped: set<Coord>, start: Coord, goal: Coord, disc: Discipline,
                                          depth: map<Coord, nat>)
    requires Searching(cells, frontier, visited, start, depth)
    requires RolesKept(base, cells)
    requires Covered(base, frontier, visited, popped, goal, depth, disc)
    ensures Sound(base, start, goal, disc == Fifo, Explore(cells, frontier, visited, start, goal, disc, depth))
    decreases |CellsOf(cells) - visited|, |frontier|
  {
    if |frontier| == 0 {
      assert start in popped;
      ClosedRegionUnreachable(base, start, goal, popped);
    } else {
      var c := Next(frontier, disc);
      CheckedKeeps(cells, frontier, visited, start, depth, disc);
      var marked := Checked(cells, c);
      RolesKeptTrans(base, cells, marked);
      if c == goal {
        GoalReached(base, marked, frontier, visited, popped, start, goal, disc, depth);
      } else {
        var s := Turn(cells, frontier, visited, disc);
        ScanKeeps(marked, c, Rest(frontier, disc), visited, start, depth);
        CoveredStep(base, cells, frontier, visited, popped, start, goal, depth, disc);
        if s.visited != visited {
          FewerLeft(CellsOf(cells), visited, s.visited);
        }
        ExploreCorrect(base, s.cells, s.frontier, s.visited, popped + {c}, start, goal, disc,
                       Deepen(depth, s.visited, c));
      }
    }
  }

  /** The turn that takes the goal off the frontier returns a sound outcome. */
  lemma GoalReached(base: Cells, marked: Cells, frontier: seq<Coord>, visited: set<Coord>, popped: set<Coord>,
                    start: Coord, goal: Coord, disc: Discipline, depth: map<Coord, nat>)
    requires Rectangular(marked) && ParentTree(marked, start, depth) && depth.Keys == visited
    requires RolesKept(base, marked)
    requires Covered(base, frontier, visited, popped, goal, depth, disc)
    requires |frontier| > 0 && Next(frontier, disc) == goal && goal in depth
    ensures Ranked(marked, start, depth) &&
      Sound(base, start, goal, disc == Fifo, Outcome(Some(Chain(marked, Some(goal), start, depth)), marked))
  {
    TreeRanked(marked, start, depth);
    var p := Chain(marked, Some(goal), start, depth);
    ChainIsRoute(marked, start, depth, goal);
    RolesKeptWalls(base, marked);
    SameWallsRoutes(base, marked, start, goal, p);
    if disc == Fifo {
      forall w | Walk(base, start, w) && EndOf(start, w) == goal
        ensures |p| <= |w|
      {
        forall x | x in depth && x !in popped
          ensures depth[goal] <= depth[x] + Heuristic(x, goal, false)
        {
          LayeredBounds(frontier, depth, popped, x);
        }
        NoShorterWalk(base, start, goal, popped, depth, depth[goal], false, w);
      }
    }
  }

  /** `bfs` finds a path exactly when the goal is reachable, and the path it finds is a shortest route. */
  lemma BfsCorrect(cells: Cells, start: Coord, goal: Coord)
    requires Layout(cells) && InBounds(cells, start)
    ensures var o := FrontierOutcome(cells, start, goal, Fifo);
      RolesKept(cells, o.cells) &&
      (o.path.Some? <==> Reachable(cells, start, goal)) &&
      (o.path.Some? ==> ShortestRoute(cells, start, goal, o.path.value))
  {
    FrontierCorrect(cells, start, goal, Fifo);
  }

  /** `dfs` finds a path exactly when the goal is reachable, and the path it finds is a route. */
  lemma DfsCorrect(cells: Cells, start: Coord, goal: Coord)
    requires Layout(cells) && InBounds(cells, start)
    ensures var o := FrontierOutcome(cells, start, goal, Lifo);
      RolesKept(cells, o.cells) &&
      (o.path.Some? <==> Reachable(cells, start, goal)) &&
      (o.path.Some? ==> Route(cells, start, goal, o.path.value))
  {
    FrontierCorrect(cells, start, goal, Lifo);
  }

  lemma FrontierCorrect(cells: Cells, start: Coord, goal: Coord, disc: Discipline)
    requires Layout(cells) && InBounds(cells, start)
    ensures Sound(cells, start, goal, disc == Fifo, FrontierOutcome(cells, start, goal, disc))
  {
    var depth := map[start := 0];
    assert Searching(cells, [start], {start}, start, depth);
    assert RolesKept(cells, cells);
    ExploreCorrect(cells, cells, [start], {start}, {}, start, goal, disc, depth);
  }
}
