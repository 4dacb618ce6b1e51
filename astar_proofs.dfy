/**
 * What A* guarantees. On any grid a path it returns is a route from the
 * start to the goal and it changes only search state. Because the Manhattan
 * distance never drops by more than one along a step, it is a consistent
 * heuristic, and the engine never reopens a closed cell: a run also finds a
 * path exactly when the goal is reachable, and the path is a shortest one,
 * whatever costs the grid held on entry.
 */
module AStarCorrectness {
  import opened Types
  import opened GridModel
  import opened Adjacency
  import opened Walks
  import opened PathReconstruction
  import opened StableSort
  import opened FrontierSearch
  import opened AStarSearch

  /** A scan changes only search state. */
  lemma ExpandKeepsRoles(cells: Cells, current: Coord, goal: Coord, rest: seq<Coord>, openSet: set<Coord>, closed: set<Coord>)
    requires Rectangular(cells) && InBounds(cells, current) && current in closed
    ensures RolesKept(cells, Expand(current, goal, Neighbors(cells, current), Fringe(cells, rest, openSet, closed)).cells)
  {
    var s0 := Fringe(cells, rest, openSet, closed);
    var r := Expand(current, goal, Neighbors(cells, current), s0);
    var t := Better(cells, current, Neighbors(cells, current), openSet, closed);
    ExpandGrid(current, goal, Neighbors(cells, current), s0);
    forall c | InBounds(cells, c)
      ensures SameRole(At(cells, c), At(r.cells, c)) && At(cells, c).baseLabel == At(r.cells, c).baseLabel
    {
      assert InBounds(r.cells, c);
      var n := Relinked(cells, current, goal, c);
      if c !in t {
        assert At(r.cells, c) == At(cells, c);
      } else if c in openSet {
        assert At(r.cells, c) == n;
      } else {
        assert At(r.cells, c) == n.(open := true);
      }
    }
  }

  /** Any run changes only search state and returns only routes. */
  lemma {:induction false} SeekValid(base: Cells, cells: Cells, open: seq<Coord>, openSet: set<Coord>, closed: set<Coord>,
                                     start: Coord, goal: Coord)
    requires Costing(cells, open, openSet, closed, start, goal) && RolesKept(base, cells)
    ensures var o := Seek(cells, open, openSet, closed, start, goal);
      RolesKept(base, o.cells) && (o.path.Some? ==> Route(base, start, goal, o.path.value))
    decreases |CellsOf(cells) - closed|
  {
    if |open| > 0 {
      PopCosts(cells, open, openSet, closed, start, goal);
      var sorted := SortQueue(cells, open, ByCost);
      var current := sorted[0];
      var marked := Checked(cells, current);
      RolesKeptTrans(base, cells, marked);
      if current == goal {
        GoalValid(base, cells, open, openSet, closed, start, goal);
      } else {
        var s := ExpandTurn(cells, sorted, openSet, closed, goal);
        ExpandKeepsRoles(marked, current, goal, sorted[1..], openSet - {current}, closed + {current});
        RolesKeptTrans(base, marked, s.cells);
        SeekUnfold(cells, open, openSet, closed, start, goal);
        FewerLeft(CellsOf(cells), closed, s.closed);
        SeekValid(base, s.cells, s.open, s.openSet, s.closed, start, goal);
      }
    }
  }

  /**
   * The chain read back from a search tree, once the goal is marked checked
   * on a grid with the roles of `base`, is a route on `base`, and the grid
   * keeps those roles.
   */
  lemma ChainRouted(base: Cells, cells: Cells, start: Coord, goal: Coord, d: map<Coord, nat>)
    requires RolesKept(base, cells) && InBounds(cells, goal)
    requires ParentTree(Checked(cells, goal), start, d) && goal in d
    ensures var marked := Checked(cells, goal);
      Ranked(marked, start, d) && RolesKept(base, marked) &&
      Route(base, start, goal, Chain(marked, Some(goal), start, d))
  {
    var marked := Checked(cells, goal);
    TreeRanked(marked, start, d);
    RolesKeptTrans(base, cells, marked);
    ChainIsRoute(marked, start, d, goal);
    RolesKeptWalls(base, marked);
    SameWallsRoutes(base, marked, start, goal, Chain(marked, Some(goal), start, d));
  }

  /** The cell popped first is open and on the grid, and marking it checked keeps the search tree. */
  lemma PopTree(cells: Cells, open: seq<Coord>, openSet: set<Coord>, closed: set<Coord>, start: Coord, goal: Coord)
    requires Costing(cells, open, openSet, closed, start, goal) && |open| > 0
    ensures var c := SortQueue(cells, open, ByCost)[0];
      c in openSet && InBounds(cells, c) &&
      ParentTree(Checked(cells, c), start, GRank(Checked(cells, c), openSet + closed))
  {
    PopCosts(cells, open, openSet, closed, start, goal);
  }

  /** The chain read back after popping the goal is a route, on any grid with the same roles. */
  lemma GoalRouted(base: Cells, cells: Cells, open: seq<Coord>, openSet: set<Coord>, closed: set<Coord>,
                   start: Coord, goal: Coord)
    requires Costing(cells, open, openSet, closed, start, goal) && RolesKept(base, cells) && |open| > 0
    requires SortQueue(cells, open, ByCost)[0] == goal
    ensures InBounds(cells, goal)
    ensures var marked := Checked(cells, goal);
      var d := GRank(marked, openSet + closed);
      Ranked(marked, start, d) && goal in d &&
      RolesKept(base, marked) && Route(base, start, goal, Chain(marked, Some(goal), start, d))
  {
    PopTree(cells, open, openSet, closed, start, goal);
    var marked := Checked(cells, goal);
    var d := GRank(marked, openSet + closed);
    assert goal in d;
    ChainRouted(base, cells, start, goal, d);
  }

  /** The turn that pops the goal returns a route, on a grid whose roles are those of `base`. */
  lemma GoalValid(base: Cells, cells: Cells, open: seq<Coord>, openSet: set<Coord>, closed: set<Coord>,
                  start: Coord, goal: Coord)
    requires Costing(cells, open, openSet, closed, start, goal) && RolesKept(base, cells) && |open| > 0
    requires SortQueue(cells, open, ByCost)[0] == goal
    ensures var o := Seek(cells, open, openSet, closed, start, goal);
      RolesKept(base, o.cells) && (o.path.Some? ==> Route(base, start, goal, o.path.value))
  {
    GoalRouted(base, cells, open, openSet, closed, start, goal);
    SeekGoal(cells, open, openSet, closed, start, goal);
  }

  /** The costs of a costed cell: a finite cost so far, its Manhattan distance to the goal, and their sum. */
  predicate Priced(n: Node, c: Coord, goal: Coord)
  {
    n.gCost.Fin? && n.hCost == Fin(Manhattan(c, goal)) && n.fCost == Fin(n.gCost.n + Manhattan(c, goal))
  }

  /**
   * What a run has established, on the grid `base` it started from, with
   * `floor` the total cost of the cell closed last: the goal is not closed;
   * every open or closed cell is priced; no open cell is cheaper than
   * `floor` and no closed cell dearer; and every walkable neighbour of a
   * closed cell is open or closed, with a cost so far at most one more.
   */
  ghost predicate Informed(base: Cells, cells: Cells, openSet: set<Coord>, closed: set<Coord>, goal: Coord, floor: nat)
    requires Rectangular(base) && Rectangular(cells)
  {
    goal !in closed &&
    (forall x {:trigger x in openSet} :: x in openSet ==>
      InBounds(cells, x) && Priced(At(cells, x), x, goal) && floor <= At(cells, x).fCost.n) &&
    (forall v {:trigger v in closed} :: v in closed ==>
      InBounds(cells, v) && Priced(At(cells, v), v, goal) && At(cells, v).fCost.n <= floor) &&
    (forall u, x {:trigger Adjacent(u, x)} :: u in closed && Adjacent(u, x) && Open(base, x) ==>
      (x in openSet || x in closed) && At(cells, x).gCost.n <= At(cells, u).gCost.n + 1)
  }

  /** The sorted open list's head is an open cell no dearer in total than any other. */
  lemma HeadCheapest(base: Cells, cells: Cells, open: seq<Coord>, openSet: set<Coord>, closed: set<Coord>,
                     start: Coord, goal: Coord, floor: nat)
    requires Costing(cells, open, openSet, closed, start, goal) && Rectangular(base) && |open| > 0
    requires Informed(base, cells, openSet, closed, goal, floor)
    ensures var c := SortQueue(cells, open, ByCost)[0];
      c in openSet && InBounds(cells, c) &&
      forall y {:trigger y in openSet} :: y in openSet ==> At(cells, c).fCost.n <= At(cells, y).fCost.n
  {
    PopCosts(cells, open, openSet, closed, start, goal);
    SortQueueHead(cells, open, ByCost);
    var c := SortQueue(cells, open, ByCost)[0];
    forall y | y in openSet
      ensures At(cells, c).fCost.n <= At(cells, y).fCost.n
    {
      assert y in open;
      assert !Before(cells, y, c, ByCost);
    }
  }

  /**
   * The effect of scanning the neighbours of `current` that `Informed`
   * depends on, with `t` the relinked cells and `openSet`, `closed` the sets
   * during the scan: each relinked cell is walkable, not closed, next to
   * `current`, and dearer than the route through `current` or not open; it
   * now has that route's costs; no other cost changes; and every walkable
   * neighbour that is neither closed nor relinked is open and already no
   * dearer than that route.
   */
  ghost predicate ExpandedBy(base: Cells, cells: Cells, next: Cells, current: Coord, goal: Coord,
                             openSet: set<Coord>, closed: set<Coord>, t: set<Coord>)
    requires Rectangular(base) && Rectangular(cells) && InBounds(cells, current)
  {
    Rectangular(next) && SameShape(next, cells) &&
    (forall x {:trigger x in t} :: x in t ==>
      x !in closed && Open(base, x) && Adjacent(current, x) && InBounds(cells, x) &&
      (CostLess(Tentative(cells, current), At(cells, x).gCost) || x !in openSet)) &&
    (forall x {:trigger At(next, x)} :: InBounds(cells, x) ==>
      At(next, x).gCost == (if x in t then Tentative(cells, current) else At(cells, x).gCost) &&
      At(next, x).hCost == (if x in t then Fin(Manhattan(x, goal)) else At(cells, x).hCost) &&
      At(next, x).fCost == (if x in t then Plus(Tentative(cells, current), Manhattan(x, goal)) else At(cells, x).fCost)) &&
    (forall x {:trigger Open(base, x)} :: Adjacent(current, x) && Open(base, x) && x !in closed && x !in t ==>
      InBounds(cells, x) && x in openSet && !CostLess(Tentative(cells, current), At(cells, x).gCost))
  }

  /** Scanning the neighbours of a closed cell, in the terms of `ExpandedBy`. */
  lemma ExpandEffect(base: Cells, cells: Cells, current: Coord, goal: Coord, rest: seq<Coord>,
                     openSet: set<Coord>, closed: set<Coord>)
    requires RolesKept(base, cells) && InBounds(cells, current) && current in closed
    ensures var nbrs := Neighbors(cells, current);
      var s := Expand(current, goal, nbrs, Fringe(cells, rest, openSet, closed));
      var t := Better(cells, current, nbrs, openSet, closed);
      RolesKept(base, s.cells) && s.openSet == openSet + t && s.closed == closed &&
      ExpandedBy(base, cells, s.cells, current, goal, openSet, closed, t)
  {
    var nbrs := Neighbors(cells, current);
    var s0 := Fringe(cells, rest, openSet, closed);
    var s := Expand(current, goal, nbrs, s0);
    var t := Better(cells, current, nbrs, openSet, closed);
    ExpandCells(current, goal, nbrs, s0);
    ExpandedFields(cells, s.cells, current, goal, openSet, t);
    ExpandKeepsRoles(cells, current, goal, rest, openSet, closed);
    RolesKeptTrans(base, cells, s.cells);
    RolesKeptOpen(base, cells);
    forall x | Adjacent(current, x) && Open(base, x) && x !in closed && x !in t
      ensures InBounds(cells, x) && x in openSet && !CostLess(Tentative(cells, current), At(cells, x).gCost)
    {
      assert Open(cells, x);
      assert x in nbrs;
    }
  }

  /** `ExpandedBy` depends only on the costs of the grid before the scan. */
  lemma ExpandedByFrame(base: Cells, a: Cells, b: Cells, next: Cells, current: Coord, goal: Coord,
                        openSet: set<Coord>, closed: set<Coord>, t: set<Coord>)
    requires Rectangular(base) && Rectangular(a) && Rectangular(b) && SameShape(a, b) && InBounds(a, current)
    requires forall x {:trigger At(b, x)} :: InBounds(a, x) ==>
      At(b, x).gCost == At(a, x).gCost && At(b, x).hCost == At(a, x).hCost && At(b, x).fCost == At(a, x).fCost
    requires ExpandedBy(base, a, next, current, goal, openSet, closed, t)
    ensures ExpandedBy(base, b, next, current, goal, openSet, closed, t)
  {
    assert At(b, current).gCost == At(a, current).gCost;
    assert Tentative(b, current) == Tentative(a, current);
    forall x | x in t
      ensures InBounds(b, x) && (CostLess(Tentative(b, current), At(b, x).gCost) || x !in openSet)
    {
      assert At(b, x).gCost == At(a, x).gCost;
    }
    forall x | InBounds(b, x)
      ensures At(next, x).gCost == (if x in t then Tentative(b, current) else At(b, x).gCost) &&
        At(next, x).hCost == (if x in t then Fin(Manhattan(x, goal)) else At(b, x).hCost) &&
        At(next, x).fCost == (if x in t then Plus(Tentative(b, current), Manhattan(x, goal)) else At(b, x).fCost)
    {
      assert At(b, x).gCost == At(a, x).gCost;
    }
    forall x | Adjacent(current, x) && Open(base, x) && x !in closed && x !in t
      ensures InBounds(b, x) && x in openSet && !CostLess(Tentative(b, current), At(b, x).gCost)
    {
      assert At(b, x).gCost == At(a, x).gCost;
    }
  }

  /** Marking a cell checked changes no cost. */
  lemma CheckedCosts(cells: Cells, c: Coord)
    requires Rectangular(cells) && InBounds(cells, c)
    ensures forall x {:trigger At(cells, x)} :: InBounds(Checked(cells, c), x) ==>
      At(cells, x).gCost == At(Checked(cells, c), x).gCost && At(cells, x).hCost == At(Checked(cells, c), x).hCost &&
      At(cells, x).fCost == At(Checked(cells, c), x).fCost
  {
  }

  /** The scanning turn of an open cell, in the terms of `ExpandedBy` on the grid before the pop. */
  lemma TurnExpanded(base: Cells, cells: Cells, open: seq<Coord>, openSet: set<Coord>, closed: set<Coord>,
                     start: Coord, goal: Coord)
    requires Costing(cells, open, openSet, closed, start, goal) && RolesKept(base, cells) && |open| > 0
    ensures var sorted := SortQueue(cells, open, ByCost);
      |sorted| == |open| && InBounds(cells, sorted[0]) &&
      var c := sorted[0];
      var marked := Checked(cells, c);
      var s := ExpandTurn(cells, sorted, openSet, closed, goal);
      var t := Better(marked, c, Neighbors(marked, c), openSet - {c}, closed + {c});
      s.openSet == (openSet - {c}) + t && s.closed == closed + {c} && RolesKept(base, s.cells) &&
      ExpandedBy(base, cells, s.cells, c, goal, openSet - {c}, closed + {c}, t)
  {
    PopOnGrid(cells, open, openSet, closed, start, goal);
    var sorted := SortQueue(cells, open, ByCost);
    var c := sorted[0];
    var marked := Checked(cells, c);
    var s := ExpandTurn(cells, sorted, openSet, closed, goal);
    var t := Better(marked, c, Neighbors(marked, c), openSet - {c}, closed + {c});
    RolesKeptTrans(base, cells, marked);
    ExpandEffect(base, marked, c, goal, sorted[1..], openSet - {c}, closed + {c});
    CheckedCosts(cells, c);
    ExpandedByFrame(base, marked, cells, s.cells, c, goal, openSet - {c}, closed + {c}, t);
  }

  /** After the scan of the cheapest open cell every open cell is priced and no cheaper than it. */
  lemma AfterOpen(base: Cells, cells: Cells, next: Cells, c: Coord, goal: Coord, openSet: set<Coord>,
                  closed: set<Coord>, floor: nat, t: set<Coord>)
    requires Rectangular(base) && Rectangular(cells) && Informed(base, cells, openSet, closed, goal, floor)
    requires c in openSet && forall y {:trigger y in openSet} :: y in openSet ==> At(cells, c).fCost.n <= At(cells, y).fCost.n
    requires ExpandedBy(base, cells, next, c, goal, openSet - {c}, closed + {c}, t)
    ensures forall x {:trigger x in (openSet - {c}) + t} :: x in (openSet - {c}) + t ==>
      InBounds(next, x) && Priced(At(next, x), x, goal) && At(cells, c).fCost.n <= At(next, x).fCost.n
  {
    forall x | x in (openSet - {c}) + t
      ensures InBounds(next, x) && Priced(At(next, x), x, goal) && At(cells, c).fCost.n <= At(next, x).fCost.n
    {
      assert InBounds(cells, x);
      if x in t {
        ManhattanConsistent(c, x, goal);
      }
    }
  }

  /** After the scan of the cheapest open cell every closed cell, it included, is priced and no dearer than it. */
  lemma AfterClosed(base: Cells, cells: Cells, next: Cells, c: Coord, goal: Coord, openSet: set<Coord>,
                    closed: set<Coord>, floor: nat, t: set<Coord>)
    requires Rectangular(base) && Rectangular(cells) && Informed(base, cells, openSet, closed, goal, floor)
    requires c in openSet && c != goal
    requires ExpandedBy(base, cells, next, c, goal, openSet - {c}, closed + {c}, t)
    ensures goal !in closed + {c}
    ensures forall v {:trigger v in closed + {c}} :: v in closed + {c} ==>
      InBounds(next, v) && Priced(At(next, v), v, goal) && At(next, v).fCost.n <= At(cells, c).fCost.n
  {
    forall v | v in closed + {c}
      ensures InBounds(next, v) && Priced(At(next, v), v, goal) && At(next, v).fCost.n <= At(cells, c).fCost.n
    {
      assert InBounds(cells, v);
      assert v !in t;
    }
  }

  /**
   * After the scan of the cheapest open cell the walkable neighbours of
   * every closed cell are open or closed, at a cost so far at most one
   * more. For a neighbour closed before, this rests on the consistency of
   * the heuristic: it was closed at a total cost no higher than the
   * scanned cell's.
   */
  lemma AfterClosure(base: Cells, cells: Cells, next: Cells, c: Coord, goal: Coord, openSet: set<Coord>,
                     closed: set<Coord>, floor: nat, t: set<Coord>)
    requires Rectangular(base) && Rectangular(cells) && Informed(base, cells, openSet, closed, goal, floor)
    requires c in openSet
    requires ExpandedBy(base, cells, next, c, goal, openSet - {c}, closed + {c}, t)
    ensures forall u, x {:trigger Adjacent(u, x)} :: u in closed + {c} && Adjacent(u, x) && Open(base, x) ==>
      (x in (openSet - {c}) + t || x in closed + {c}) && At(next, x).gCost.n <= At(next, u).gCost.n + 1
  {
    forall u, x | u in closed + {c} && Adjacent(u, x) && Open(base, x)
      ensures (x in (openSet - {c}) + t || x in closed + {c}) && At(next, x).gCost.n <= At(next, u).gCost.n + 1
    {
      assert InBounds(cells, u) && u !in t;
      if u == c {
        if x in closed {
          assert InBounds(cells, x) && x !in t;
          ManhattanConsistent(c, x, goal);
        } else if x !in t {
          assert x != c;
          assert x in openSet - {c};
        }
      } else {
        assert InBounds(cells, x);
      }
    }
  }

  /** The scan of the cheapest open cell, which is not the goal, keeps `Informed`, with its total cost as the new floor. */
  lemma InformedAfter(base: Cells, cells: Cells, next: Cells, c: Coord, goal: Coord, openSet: set<Coord>,
                      closed: set<Coord>, floor: nat, t: set<Coord>)
    requires Rectangular(base) && Rectangular(cells) && Informed(base, cells, openSet, closed, goal, floor)
    requires c in openSet && c != goal
    requires forall y {:trigger y in openSet} :: y in openSet ==> At(cells, c).fCost.n <= At(cells, y).fCost.n
    requires ExpandedBy(base, cells, next, c, goal, openSet - {c}, closed + {c}, t)
    ensures Informed(base, next, (openSet - {c}) + t, closed + {c}, goal, At(cells, c).fCost.n)
  {
    AfterOpen(base, cells, next, c, goal, openSet, closed, floor, t);
    AfterClosed(base, cells, next, c, goal, openSet, closed, floor, t);
    AfterClosure(base, cells, next, c, goal, openSet, closed, floor, t);
  }

  /** The scanning turn of the cheapest open cell, which is not the goal, keeps `Costing` and `Informed`. */
  lemma InformedTurn(base: Cells, cells: Cells, open: seq<Coord>, openSet: set<Coord>, closed: set<Coord>,
                     start: Coord, goal: Coord, floor: nat)
    requires Costing(cells, open, openSet, closed, start, goal) && RolesKept(base, cells) && |open| > 0
    requires Informed(base, cells, openSet, closed, goal, floor)
    requires SortQueue(cells, open, ByCost)[0] != goal
    ensures var sorted := SortQueue(cells, open, ByCost);
      |sorted| == |open| && InBounds(cells, sorted[0]) && At(cells, sorted[0]).fCost.Fin? &&
      var s := ExpandTurn(cells, sorted, openSet, closed, goal);
      Costing(s.cells, s.open, s.openSet, s.closed, start, goal) && RolesKept(base, s.cells) &&
      Informed(base, s.cells, s.openSet, s.closed, goal, At(cells, sorted[0]).fCost.n)
  {
    HeadCheapest(base, cells, open, openSet, closed, start, goal, floor);
    TurnExpanded(base, cells, open, openSet, closed, start, goal);
    var sorted := SortQueue(cells, open, ByCost);
    var c := sorted[0];
    var marked := Checked(cells, c);
    var s := ExpandTurn(cells, sorted, openSet, closed, goal);
    var t := Better(marked, c, Neighbors(marked, c), openSet - {c}, closed + {c});
    SeekUnfold(cells, open, openSet, closed, start, goal);
    InformedAfter(base, cells, s.cells, c, goal, openSet, closed, floor, t);
  }

  /**
   * The lower-bound facts at the pop of the goal, for the costs so far `d`
   * of the open and closed cells: the goal is costed and not closed, the
   * walkable neighbours of closed cells are costed at most one more, and no
   * unclosed cell's cost so far plus its Manhattan distance to the goal is
   * below the goal's cost so far.
   */
  ghost predicate LowerBounds(base: Cells, closed: set<Coord>, goal: Coord, d: map<Coord, nat>)
    requires Rectangular(base)
  {
    goal in d && goal !in closed && (forall u {:trigger u in closed} :: u in closed ==> u in d) &&
    (forall u, x {:trigger Adjacent(u, x)} :: u in closed && Adjacent(u, x) && Open(base, x) ==> x in d && d[x] <= d[u] + 1) &&
    forall x {:trigger d[x]} :: x in d && x !in closed ==> d[goal] <= d[x] + Heuristic(x, goal, true)
  }

  /** When the goal is the cheapest open cell, the costs so far meet `LowerBounds`. */
  lemma GoalBound(base: Cells, cells: Cells, open: seq<Coord>, openSet: set<Coord>, closed: set<Coord>,
                  start: Coord, goal: Coord, floor: nat)
    requires Costing(cells, open, openSet, closed, start, goal) && Rectangular(base)
    requires Informed(base, cells, openSet, closed, goal, floor)
    requires goal in openSet && forall y {:trigger y in openSet} :: y in openSet ==> At(cells, goal).fCost.n <= At(cells, y).fCost.n
    ensures LowerBounds(base, closed, goal, GRank(cells, openSet + closed))
  {
    var d := GRank(cells, openSet + closed);
    ManhattanMetric(goal, goal, goal);
    forall x | x in d && x !in closed
      ensures d[goal] <= d[x] + Heuristic(x, goal, true)
    {
      assert x in openSet;
    }
    forall u, x | u in closed && Adjacent(u, x) && Open(base, x)
      ensures x in d && d[x] <= d[u] + 1
    {
      assert x in openSet || x in closed;
    }
  }

  /**
   * The chain read back from a search tree ranked by costs that meet
   * `LowerBounds` is a shortest route, on any grid with the same roles.
   */
  lemma GoalPopped(base: Cells, cells: Cells, marked: Cells, closed: set<Coord>, start: Coord, goal: Coord, d: map<Coord, nat>)
    requires RolesKept(base, cells) && RolesKept(cells, marked)
    requires ParentTree(marked, start, d) && LowerBounds(base, closed, goal, d)
    ensures Ranked(marked, start, d) && goal in d
    ensures Sound(base, start, goal, true, Outcome(Some(Chain(marked, Some(goal), start, d)), marked))
  {
    TreeRanked(marked, start, d);
    var p := Chain(marked, Some(goal), start, d);
    ChainIsRoute(marked, start, d, goal);
    RolesKeptTrans(base, cells, marked);
    RolesKeptWalls(base, marked);
    SameWallsRoutes(base, marked, start, goal, p);
    forall w | Walk(base, start, w) && EndOf(start, w) == goal
      ensures |p| <= |w|
    {
      NoShorterWalk(base, start, goal, closed, d, d[goal], true, w);
    }
  }

  /** Popping the goal from a state satisfying `Informed` reads back a shortest route. */
  lemma GoalOutcome(base: Cells, cells: Cells, open: seq<Coord>, openSet: set<Coord>, closed: set<Coord>,
                    start: Coord, goal: Coord, floor: nat)
    requires Costing(cells, open, openSet, closed, start, goal) && RolesKept(base, cells) && |open| > 0
    requires Informed(base, cells, openSet, closed, goal, floor)
    requires SortQueue(cells, open, ByCost)[0] == goal
    ensures InBounds(cells, goal)
    ensures var marked := Checked(cells, goal);
      var d := GRank(marked, openSet + closed);
      Ranked(marked, start, d) && goal in d &&
      Sound(base, start, goal, true, Outcome(Some(Chain(marked, Some(goal), start, d)), marked))
  {
    HeadCheapest(base, cells, open, openSet, closed, start, goal, floor);
    PopCosts(cells, open, openSet, closed, start, goal);
    GoalBound(base, cells, open, openSet, closed, start, goal, floor);
    GoalPopped(base, cells, Checked(cells, goal), closed, start, goal, GRank(cells, openSet + closed));
  }

  /** The turn that pops the goal, from a state satisfying `Informed`, returns a shortest route. */
  lemma GoalSound(base: Cells, cells: Cells, open: seq<Coord>, openSet: set<Coord>, closed: set<Coord>,
                  start: Coord, goal: Coord, floor: nat)
    requires Costing(cells, open, openSet, closed, start, goal) && RolesKept(base, cells) && |open| > 0
    requires Informed(base, cells, openSet, closed, goal, floor)
    requires SortQueue(cells, open, ByCost)[0] == goal
    ensures Sound(base, start, goal, true, Seek(cells, open, openSet, closed, start, goal))
  {
    GoalOutcome(base, cells, open, openSet, closed, start, goal, floor);
    SeekGoal(cells, open, openSet, closed, start, goal);
  }

  /** With an empty open list the goal is unreachable: the closed cells are closed under steps. */
  lemma OpenEmptied(base: Cells, cells: Cells, openSet: set<Coord>, closed: set<Coord>, start: Coord, goal: Coord, floor: nat)
    requires Costing(cells, [], openSet, closed, start, goal) && RolesKept(base, cells)
    requires Informed(base, cells, openSet, closed, goal, floor)
    ensures !Reachable(base, start, goal)
  {
    var none: seq<Coord> := [];
    assert start !in none;
    assert start in closed;
    forall u, x | u in closed && Adjacent(u, x) && Open(base, x)
      ensures x in closed
    {
      assert x !in none;
    }
    ClosedRegionUnreachable(base, start, goal, closed);
  }

  /**
   * Every run of `Seek` from a state satisfying `Informed` finds a path
   * exactly when the goal is reachable, and the path is a shortest route.
   */
  lemma {:induction false} SeekCorrect(base: Cells, cells: Cells, open: seq<Coord>, openSet: set<Coord>, closed: set<Coord>,
                                       start: Coord, goal: Coord, floor: nat)
    requires Costing(cells, open, openSet, closed, start, goal) && RolesKept(base, cells)
    requires Informed(base, cells, openSet, closed, goal, floor)
    ensures Sound(base, start, goal, true, Seek(cells, open, openSet, closed, start, goal))
    decreases |CellsOf(cells) - closed|, 1
  {
    if |open| == 0 {
      OpenEmptied(base, cells, openSet, closed, start, goal, floor);
    } else if SortQueue(cells, open, ByCost)[0] == goal {
      GoalSound(base, cells, open, openSet, closed, start, goal, floor);
    } else {
      TurnCorrect(base, cells, open, openSet, closed, start, goal, floor);
    }
  }

  /** `SeekCorrect` for a turn that pops a cell other than the goal: the next state is `Informed` again. */
  lemma {:induction false} TurnCorrect(base: Cells, cells: Cells, open: seq<Coord>, openSet: set<Coord>, closed: set<Coord>,
                                       start: Coord, goal: Coord, floor: nat)
    requires Costing(cells, open, openSet, closed, start, goal) && RolesKept(base, cells) && |open| > 0
    requires Informed(base, cells, openSet, closed, goal, floor)
    requires SortQueue(cells, open, ByCost)[0] != goal
    ensures Sound(base, start, goal, true, Seek(cells, open, openSet, closed, start, goal))
    decreases |CellsOf(cells) - closed|, 0
  {
    InformedTurn(base, cells, open, openSet, closed, start, goal, floor);
    SeekUnfold(cells, open, openSet, closed, start, goal);
    var sorted := SortQueue(cells, open, ByCost);
    var s := ExpandTurn(cells, sorted, openSet, closed, goal);
    FewerLeft(CellsOf(cells), closed, s.closed);
    SeekCorrect(base, s.cells, s.open, s.openSet, s.closed, start, goal, At(cells, sorted[0]).fCost.n);
  }

  /** On any grid, `aStar` changes only search state and returns only routes from the start to the goal. */
  lemma AStarValid(cells: Cells, start: Coord, goal: Coord)
    requires Layout(cells) && InBounds(cells, start)
    ensures var o := AStarOutcome(cells, start, goal);
      RolesKept(cells, o.cells) && (o.path.Some? ==> Route(cells, start, goal, o.path.value))
  {
    var primed := Primed(cells, start, goal);
    assert RolesKept(cells, primed);
    SeekValid(cells, primed, [start], {start}, {}, start, goal);
  }

  /**
   * On any grid, whatever costs its nodes held, `aStar` finds a path exactly
   * when the goal is reachable, and the path is a shortest route.
   */
  lemma AStarCorrect(cells: Cells, start: Coord, goal: Coord)
    requires Layout(cells) && InBounds(cells, start)
    ensures var o := AStarOutcome(cells, start, goal);
      RolesKept(cells, o.cells) &&
      (o.path.Some? <==> Reachable(cells, start, goal)) &&
      (o.path.Some? ==> ShortestRoute(cells, start, goal, o.path.value))
  {
    var primed := Primed(cells, start, goal);
    assert RolesKept(cells, primed);
    assert Priced(At(primed, start), start, goal);
    assert Informed(cells, primed, {start}, {}, goal, 0);
    SeekCorrect(cells, primed, [start], {start}, {}, start, goal, 0);
  }
}
