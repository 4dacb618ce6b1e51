/**
 * What Dijkstra's algorithm guarantees. On any grid a path it returns is a
 * route from the start to the goal and it changes only search state. When
 * every distance other than the start's is `Infinity` on entry (which
 * clearing the search state before each search ensures), it also finds a
 * path exactly when the goal is reachable, and the path is a shortest one.
 */
module DijkstraCorrectness {
  import opened Types
  import opened GridModel
  import opened Adjacency
  import opened Walks
  import opened PathReconstruction
  import opened StableSort
  import opened FrontierSearch
  import opened DijkstraSearch

  /** Any run changes only search state and returns only routes. */
  lemma {:induction false} SettleValid(base: Cells, cells: Cells, queue: seq<Coord>, visited: set<Coord>,
                                       known: set<Coord>, start: Coord, goal: Coord)
    requires Settling(cells, queue, visited, known, start) && RolesKept(base, cells)
    ensures var o := Settle(cells, queue, visited, start, goal, known);
      RolesKept(base, o.cells) && (o.path.Some? ==> Route(base, start, goal, o.path.value))
    decreases |CellsOf(cells) - visited|, |queue|
  {
    if |queue| > 0 {
      SettlingOnGrid(cells, queue, visited, known, start);
      SortQueueMembers(cells, queue, ByDistance);
      var sorted := SortQueue(cells, queue, ByDistance);
      var current := sorted[0];
      if current in visited {
        Skipped(cells, sorted, visited, known, start);
        SettleValid(base, cells, sorted[1..], visited, known, start, goal);
      } else {
        CheckedSettles(cells, sorted, visited, known, start);
        var marked := Checked(cells, current);
        RolesKeptTrans(base, cells, marked);
        if current == goal {
          ChainIsRoute(marked, start, DistRank(marked, known), goal);
          RolesKeptWalls(base, marked);
          SameWallsRoutes(base, marked, start, goal, Chain(marked, Some(goal), start, DistRank(marked, known)));
        } else {
          var s := RelaxTurn(cells, sorted, visited);
          RelaxSettles(marked, current, sorted[1..], visited + {current}, known, start);
          RelaxKeepsRoles(marked, current, sorted[1..], visited + {current});
          RolesKeptTrans(base, marked, s.cells);
          FewerLeft(CellsOf(cells), visited, s.visited);
          SettleValid(base, s.cells, s.frontier, s.visited, known + Members(s.frontier), start, goal);
        }
      }
    }
  }

  /** A scan changes only search state. */
  lemma RelaxKeepsRoles(cells: Cells, current: Coord, rest: seq<Coord>, visited: set<Coord>)
    requires Rectangular(cells) && InBounds(cells, current)
    ensures RolesKept(cells, Relax(current, Neighbors(cells, current), Sweep(cells, rest, visited)).cells)
  {
    var s0 := Sweep(cells, rest, visited);
    var r := Relax(current, Neighbors(cells, current), s0);
    RelaxCells(current, Neighbors(cells, current), s0);
    forall c | InBounds(cells, c)
      ensures SameRole(At(cells, c), At(r.cells, c)) && At(cells, c).baseLabel == At(r.cells, c).baseLabel
    {
      assert InBounds(r.cells, c);
    }
  }

  /**
   * What a run has established, on the grid `base` it started from, with
   * `floor` the distance of the cell settled last: the goal is not visited;
   * every known, unvisited cell is queued, at distance `floor` or more;
   * every unknown cell has distance `Infinity`; no visited cell is farther
   * than `floor`; and every walkable neighbour of a visited cell is known,
   * at a distance at most one more.
   */
  ghost predicate Optimal(base: Cells, cells: Cells, queue: seq<Coord>, visited: set<Coord>, known: set<Coord>,
                          start: Coord, goal: Coord, floor: nat)
    requires Rectangular(base) && Settling(cells, queue, visited, known, start)
  {
    goal !in visited &&
    (forall x {:trigger x in known} :: x in known && x !in visited ==> x in queue && floor <= At(cells, x).distance.n) &&
    (forall c {:trigger c in known} :: InBounds(cells, c) && c !in known ==> At(cells, c).distance == Inf) &&
    (forall v {:trigger v in visited} :: v in visited ==> At(cells, v).distance.n <= floor) &&
    (forall u, x {:trigger Adjacent(u, x)} :: u in visited && Adjacent(u, x) && Open(base, x) ==>
      x in known && At(cells, x).distance.n <= At(cells, u).distance.n + 1)
  }

  /** The sorted queue's head is no farther than any queued cell. */
  lemma HeadNearest(cells: Cells, queue: seq<Coord>, visited: set<Coord>, known: set<Coord>, start: Coord)
    requires Settling(cells, queue, visited, known, start) && |queue| > 0
    ensures var sorted := SortQueue(cells, queue, ByDistance);
      |sorted| == |queue| && sorted[0] in known &&
      (forall x {:trigger x in sorted} :: x in sorted <==> x in queue) &&
      forall y {:trigger y in queue} :: y in queue ==> At(cells, sorted[0]).distance.n <= At(cells, y).distance.n
  {
    SettlingOnGrid(cells, queue, visited, known, start);
    SortQueueMembers(cells, queue, ByDistance);
    SortQueueHead(cells, queue, ByDistance);
    var sorted := SortQueue(cells, queue, ByDistance);
    assert sorted[0] in sorted;
    forall y | y in queue
      ensures At(cells, sorted[0]).distance.n <= At(cells, y).distance.n
    {
      assert !Before(cells, y, sorted[0], ByDistance);
    }
  }

  /** `Settling` and `Optimal` hold of a queue exactly when they hold of its sorted copy. */
  lemma OptimalSorted(base: Cells, cells: Cells, queue: seq<Coord>, sorted: seq<Coord>, visited: set<Coord>,
                      known: set<Coord>, start: Coord, goal: Coord, floor: nat)
    requires Rectangular(base) && Settling(cells, queue, visited, known, start)
    requires Optimal(base, cells, queue, visited, known, start, goal, floor)
    requires forall x {:trigger x in sorted} :: x in sorted <==> x in queue
    ensures Settling(cells, sorted, visited, known, start) && Optimal(base, cells, sorted, visited, known, start, goal, floor)
  {
    forall x | x in sorted
      ensures x in known
    {
      assert x in queue;
    }
    forall x | x in known && x !in visited
      ensures x in sorted
    {
      assert x in queue;
    }
  }

  /** Dropping a visited head keeps `Optimal`. */
  lemma OptimalSkip(base: Cells, cells: Cells, sorted: seq<Coord>, visited: set<Coord>, known: set<Coord>,
                    start: Coord, goal: Coord, floor: nat)
    requires Rectangular(base) && Settling(cells, sorted, visited, known, start)
    requires Optimal(base, cells, sorted, visited, known, start, goal, floor)
    requires |sorted| > 0 && sorted[0] in visited
    ensures Settling(cells, sorted[1..], visited, known, start) &&
      Optimal(base, cells, sorted[1..], visited, known, start, goal, floor)
  {
    Skipped(cells, sorted, visited, known, start);
    forall x | x in known && x !in visited
      ensures x in sorted[1..]
    {
      InTail(sorted, x);
    }
  }

  /**
   * The effect of relaxing the neighbours of `current` that `Optimal`
   * depends on, with `t` the improved cells: the new queue holds the old
   * queue `rest` and `t`; each improved cell is walkable, unvisited, next to
   * `current`, and had a distance above the tentative one, which it now
   * has; no other distance changes; and every walkable, unvisited neighbour
   * that was not improved was already no farther than the tentative
   * distance.
   */
  ghost predicate RelaxedBy(base: Cells, cells: Cells, next: Cells, current: Coord, rest: seq<Coord>, nf: seq<Coord>,
                            visited: set<Coord>, t: set<Coord>)
    requires Rectangular(base) && Rectangular(cells) && InBounds(cells, current)
  {
    Rectangular(next) && SameShape(next, cells) &&
    (forall x {:trigger x in nf} :: x in nf <==> x in rest || x in t) &&
    (forall x {:trigger x in t} :: x in t ==>
      x !in visited && Open(base, x) && Adjacent(current, x) && InBounds(cells, x) &&
      CostLess(Tentative(cells, current), At(cells, x).distance)) &&
    (forall x {:trigger At(next, x)} :: InBounds(cells, x) ==>
      At(next, x).distance == if x in t then Tentative(cells, current) else At(cells, x).distance) &&
    (forall x {:trigger Open(base, x)} :: Adjacent(current, x) && Open(base, x) && x !in visited && x !in t ==>
      InBounds(cells, x) && !CostLess(Tentative(cells, current), At(cells, x).distance))
  }

  /** Relaxing the neighbours of `current`, in the terms of `RelaxedBy`. */
  lemma RelaxEffect(base: Cells, cells: Cells, current: Coord, rest: seq<Coord>, visited: set<Coord>)
    requires RolesKept(base, cells) && InBounds(cells, current) && current in visited
    ensures var s := Relax(current, Neighbors(cells, current), Sweep(cells, rest, visited));
      RolesKept(base, s.cells) && s.visited == visited &&
      RelaxedBy(base, cells, s.cells, current, rest, s.frontier, visited, Improved(cells, current, Neighbors(cells, current), visited))
  {
    var nbrs := Neighbors(cells, current);
    var s0 := Sweep(cells, rest, visited);
    var s := Relax(current, nbrs, s0);
    var t := Improved(cells, current, nbrs, visited);
    RelaxCells(current, nbrs, s0);
    RelaxKeepsRoles(cells, current, rest, visited);
    RolesKeptTrans(base, cells, s.cells);
    RolesKeptOpen(base, cells);
    forall x | Adjacent(current, x) && Open(base, x) && x !in visited && x !in t
      ensures InBounds(cells, x) && !CostLess(Tentative(cells, current), At(cells, x).distance)
    {
      assert Open(cells, x);
      assert x in nbrs;
    }
  }

  /** `RelaxedBy` depends only on the distances of the grid before the scan. */
  lemma RelaxedByFrame(base: Cells, a: Cells, b: Cells, next: Cells, current: Coord, rest: seq<Coord>, nf: seq<Coord>,
                       visited: set<Coord>, t: set<Coord>)
    requires Rectangular(base) && Rectangular(a) && Rectangular(b) && SameShape(a, b) && InBounds(a, current)
    requires forall x {:trigger At(b, x)} :: InBounds(a, x) ==> At(b, x).distance == At(a, x).distance
    requires RelaxedBy(base, a, next, current, rest, nf, visited, t)
    ensures RelaxedBy(base, b, next, current, rest, nf, visited, t)
  {
    assert At(b, current).distance == At(a, current).distance;
    assert Tentative(b, current) == Tentative(a, current);
    forall x | x in t
      ensures InBounds(b, x) && CostLess(Tentative(b, current), At(b, x).distance)
    {
      assert At(b, x).distance == At(a, x).distance;
    }
    forall x | InBounds(b, x)
      ensures At(next, x).distance == if x in t then Tentative(b, current) else At(b, x).distance
    {
      assert At(b, x).distance == At(a, x).distance;
    }
    forall x | Adjacent(current, x) && Open(base, x) && x !in visited && x !in t
      ensures InBounds(b, x) && !CostLess(Tentative(b, current), At(b, x).distance)
    {
      assert At(b, x).distance == At(a, x).distance;
    }
  }

  /**
   * After relaxing the nearest queued cell every known, unvisited cell is
   * queued and no nearer than it.
   */
  lemma AfterQueued(base: Cells, cells: Cells, next: Cells, sorted: seq<Coord>, visited: set<Coord>, known: set<Coord>,
                     start: Coord, goal: Coord, floor: nat, nf: seq<Coord>, t: set<Coord>)
    requires Rectangular(base) && Settling(cells, sorted, visited, known, start)
    requires Optimal(base, cells, sorted, visited, known, start, goal, floor)
    requires |sorted| > 0 && sorted[0] in known && sorted[0] !in visited && sorted[0] != goal
    requires forall y {:trigger y in sorted} :: y in sorted ==> At(cells, sorted[0]).distance.n <= At(cells, y).distance.n
    requires RelaxedBy(base, cells, next, sorted[0], sorted[1..], nf, visited + {sorted[0]}, t)
    requires Settling(next, nf, visited + {sorted[0]}, known + t, start)
    ensures forall x {:trigger x in known + t} :: x in known + t && x !in visited + {sorted[0]} ==>
      x in nf && At(cells, sorted[0]).distance.n <= At(next, x).distance.n
  {
    forall x | x in known + t && x !in visited + {sorted[0]}
      ensures x in nf && At(cells, sorted[0]).distance.n <= At(next, x).distance.n
    {
      if x !in t {
        InTail(sorted, x);
        assert At(next, x).distance == At(cells, x).distance;
      }
    }
  }

  /** After relaxing the nearest queued cell the walkable neighbours of every visited cell are known and near. */
  lemma AfterClosed(base: Cells, cells: Cells, next: Cells, sorted: seq<Coord>, visited: set<Coord>, known: set<Coord>,
                     start: Coord, goal: Coord, floor: nat, nf: seq<Coord>, t: set<Coord>)
    requires Rectangular(base) && Settling(cells, sorted, visited, known, start)
    requires Optimal(base, cells, sorted, visited, known, start, goal, floor)
    requires |sorted| > 0 && sorted[0] in known && sorted[0] !in visited && sorted[0] != goal
    requires forall y {:trigger y in sorted} :: y in sorted ==> At(cells, sorted[0]).distance.n <= At(cells, y).distance.n
    requires RelaxedBy(base, cells, next, sorted[0], sorted[1..], nf, visited + {sorted[0]}, t)
    requires Settling(next, nf, visited + {sorted[0]}, known + t, start)
    ensures forall u, x {:trigger Adjacent(u, x)} :: u in visited + {sorted[0]} && Adjacent(u, x) && Open(base, x) ==>
      x in known + t && At(next, x).distance.n <= At(next, u).distance.n + 1
  {
    var c := sorted[0];
    forall u, x | u in visited + {c} && Adjacent(u, x) && Open(base, x)
      ensures x in known + t && At(next, x).distance.n <= At(next, u).distance.n + 1
    {
      assert InBounds(cells, u) && InBounds(cells, x);
      if u == c && x !in visited && x != c && x !in t {
        assert !CostLess(Tentative(cells, c), At(cells, x).distance);
      }
    }
  }

  /**
   * After relaxing the nearest queued cell no visited cell is farther than
   * it, and every unknown cell is still at distance `Infinity`.
   */
  lemma AfterBelow(base: Cells, cells: Cells, next: Cells, sorted: seq<Coord>, visited: set<Coord>, known: set<Coord>,
                     start: Coord, goal: Coord, floor: nat, nf: seq<Coord>, t: set<Coord>)
    requires Rectangular(base) && Settling(cells, sorted, visited, known, start)
    requires Optimal(base, cells, sorted, visited, known, start, goal, floor)
    requires |sorted| > 0 && sorted[0] in known && sorted[0] !in visited && sorted[0] != goal
    requires forall y {:trigger y in sorted} :: y in sorted ==> At(cells, sorted[0]).distance.n <= At(cells, y).distance.n
    requires RelaxedBy(base, cells, next, sorted[0], sorted[1..], nf, visited + {sorted[0]}, t)
    requires Settling(next, nf, visited + {sorted[0]}, known + t, start)
    ensures forall v {:trigger v in visited + {sorted[0]}} :: v in visited + {sorted[0]} ==>
      At(next, v).distance.n <= At(cells, sorted[0]).distance.n
    ensures forall c {:trigger c in known + t} :: InBounds(next, c) && c !in known + t ==> At(next, c).distance == Inf
  {
    forall v | v in visited + {sorted[0]}
      ensures At(next, v).distance.n <= At(cells, sorted[0]).distance.n
    {
      assert InBounds(cells, v);
    }
    forall c | InBounds(next, c) && c !in known + t
      ensures At(next, c).distance == Inf
    {
      assert InBounds(cells, c);
      assert At(next, c).distance == At(cells, c).distance;
    }
  }

  /** A relaxing turn of the nearest queued cell, which is not the goal, keeps `Optimal`. */
  lemma OptimalAfter(base: Cells, cells: Cells, next: Cells, sorted: seq<Coord>, visited: set<Coord>, known: set<Coord>,
                     start: Coord, goal: Coord, floor: nat, nf: seq<Coord>, t: set<Coord>)
    requires Rectangular(base) && Settling(cells, sorted, visited, known, start)
    requires Optimal(base, cells, sorted, visited, known, start, goal, floor)
    requires |sorted| > 0 && sorted[0] in known && sorted[0] !in visited && sorted[0] != goal
    requires forall y {:trigger y in sorted} :: y in sorted ==> At(cells, sorted[0]).distance.n <= At(cells, y).distance.n
    requires RelaxedBy(base, cells, next, sorted[0], sorted[1..], nf, visited + {sorted[0]}, t)
    requires Settling(next, nf, visited + {sorted[0]}, known + t, start)
    ensures Optimal(base, next, nf, visited + {sorted[0]}, known + t, start, goal, At(cells, sorted[0]).distance.n)
  {
    AfterQueued(base, cells, next, sorted, visited, known, start, goal, floor, nf, t);
    AfterClosed(base, cells, next, sorted, visited, known, start, goal, floor, nf, t);
    AfterBelow(base, cells, next, sorted, visited, known, start, goal, floor, nf, t);
  }

  /**
   * The relaxing turn of the nearest queued cell, which is not the goal,
   * keeps `Settling` and `Optimal`, with the cell's distance as the new floor.
   */
  lemma OptimalTurn(base: Cells, cells: Cells, sorted: seq<Coord>, visited: set<Coord>, known: set<Coord>,
                    start: Coord, goal: Coord, floor: nat)
    requires Settling(cells, sorted, visited, known, start) && RolesKept(base, cells)
    requires Optimal(base, cells, sorted, visited, known, start, goal, floor)
    requires |sorted| > 0 && sorted[0] in known && sorted[0] !in visited && sorted[0] != goal
    requires forall y {:trigger y in sorted} :: y in sorted ==> At(cells, sorted[0]).distance.n <= At(cells, y).distance.n
    ensures var s := RelaxTurn(cells, sorted, visited);
      var known' := known + Members(s.frontier);
      Settling(s.cells, s.frontier, s.visited, known', start) && RolesKept(base, s.cells) &&
      Optimal(base, s.cells, s.frontier, s.visited, known', start, goal, At(cells, sorted[0]).distance.n)
  {
    var c := sorted[0];
    var marked := Checked(cells, c);
    var s := RelaxTurn(cells, sorted, visited);
    var t := Improved(marked, c, Neighbors(marked, c), visited + {c});
    TurnRelaxed(base, cells, sorted, visited, known, start);
    OptimalAfter(base, cells, s.cells, sorted, visited, known, start, goal, floor, s.frontier, t);
  }

  /** The relaxing turn of a queued, unvisited cell, in the terms of `RelaxedBy`. */
  lemma TurnRelaxed(base: Cells, cells: Cells, sorted: seq<Coord>, visited: set<Coord>, known: set<Coord>, start: Coord)
    requires Settling(cells, sorted, visited, known, start) && RolesKept(base, cells)
    requires |sorted| > 0 && sorted[0] in known && sorted[0] !in visited
    ensures var c := sorted[0];
      var s := RelaxTurn(cells, sorted, visited);
      var t := Improved(Checked(cells, c), c, Neighbors(Checked(cells, c), c), visited + {c});
      known + Members(s.frontier) == known + t && s.visited == visited + {c} &&
      Settling(s.cells, s.frontier, s.visited, known + t, start) && RolesKept(base, s.cells) &&
      RelaxedBy(base, cells, s.cells, c, sorted[1..], s.frontier, visited + {c}, t)
  {
    TurnSettles(cells, sorted, visited, known, start);
    TurnRelaxedBy(base, cells, sorted, visited, known, start);
  }

  /** The relaxing turn of a queued, unvisited cell keeps `Settling`, with the improved cells known. */
  lemma TurnSettles(cells: Cells, sorted: seq<Coord>, visited: set<Coord>, known: set<Coord>, start: Coord)
    requires Settling(cells, sorted, visited, known, start)
    requires |sorted| > 0 && sorted[0] in known && sorted[0] !in visited
    ensures var c := sorted[0];
      var s := RelaxTurn(cells, sorted, visited);
      var t := Improved(Checked(cells, c), c, Neighbors(Checked(cells, c), c), visited + {c});
      known + Members(s.frontier) == known + t && s.visited == visited + {c} &&
      Settling(s.cells, s.frontier, s.visited, known + t, start)
  {
    var c := sorted[0];
    CheckedSettles(cells, sorted, visited, known, start);
    var marked := Checked(cells, c);
    RelaxSettles(marked, c, sorted[1..], visited + {c}, known, start);
    TurnKnown(cells, sorted, visited, known, start);
  }

  /** The cells known after a relaxing turn are those known before and the improved ones. */
  lemma TurnKnown(cells: Cells, sorted: seq<Coord>, visited: set<Coord>, known: set<Coord>, start: Coord)
    requires Settling(cells, sorted, visited, known, start)
    requires |sorted| > 0 && sorted[0] in known
    ensures var c := sorted[0];
      var s := RelaxTurn(cells, sorted, visited);
      known + Members(s.frontier) == known + Improved(Checked(cells, c), c, Neighbors(Checked(cells, c), c), visited + {c}) &&
      s.visited == visited + {c}
  {
    var c := sorted[0];
    assert InBounds(cells, c);
    var marked := Checked(cells, c);
    var s := RelaxTurn(cells, sorted, visited);
    RelaxCells(c, Neighbors(marked, c), Sweep(marked, sorted[1..], visited + {c}));
    forall x | x in sorted[1..]
      ensures x in known
    {
      assert x in sorted;
    }
  }

  /** The relaxing turn of a queued, unvisited cell changes only search state and relaxes as `RelaxedBy` says. */
  lemma TurnRelaxedBy(base: Cells, cells: Cells, sorted: seq<Coord>, visited: set<Coord>, known: set<Coord>, start: Coord)
    requires Settling(cells, sorted, visited, known, start) && RolesKept(base, cells)
    requires |sorted| > 0 && sorted[0] in known
    ensures var c := sorted[0];
      var s := RelaxTurn(cells, sorted, visited);
      var t := Improved(Checked(cells, c), c, Neighbors(Checked(cells, c), c), visited + {c});
      RolesKept(base, s.cells) && RelaxedBy(base, cells, s.cells, c, sorted[1..], s.frontier, visited + {c}, t)
  {
    var c := sorted[0];
    assert InBounds(cells, c);
    var marked := Checked(cells, c);
    var s := RelaxTurn(cells, sorted, visited);
    var t := Improved(marked, c, Neighbors(marked, c), visited + {c});
    RolesKeptTrans(base, cells, marked);
    RelaxEffect(base, marked, c, sorted[1..], visited + {c});
    assert forall x {:trigger At(marked, x)} :: InBounds(cells, x) ==> At(marked, x).distance == At(cells, x).distance;
    RelaxedByFrame(base, marked, cells, s.cells, c, sorted[1..], s.frontier, visited + {c}, t);
  }

  /** A relaxing turn visits one more cell of the grid. */
  lemma TurnProgress(cells: Cells, sorted: seq<Coord>, visited: set<Coord>, known: set<Coord>, start: Coord)
    requires Settling(cells, sorted, visited, known, start) && |sorted| > 0 && sorted[0] in known && sorted[0] !in visited
    ensures |CellsOf(cells) - RelaxTurn(cells, sorted, visited).visited| < |CellsOf(cells) - visited|
  {
    var s := RelaxTurn(cells, sorted, visited);
    CheckedSettles(cells, sorted, visited, known, start);
    RelaxCells(sorted[0], Neighbors(Checked(cells, sorted[0]), sorted[0]),
               Sweep(Checked(cells, sorted[0]), sorted[1..], visited + {sorted[0]}));
    forall x | x in s.visited
      ensures x in CellsOf(cells)
    {
      assert x in known;
    }
    FewerLeft(CellsOf(cells), visited, s.visited);
  }

  /**
   * The turn that settles the goal returns a shortest route: `marked` is the
   * grid with the goal marked checked, whose parent links form a search tree
   * ranked by the distances `d`.
   */
  lemma GoalSettled(base: Cells, cells: Cells, marked: Cells, queue: seq<Coord>, visited: set<Coord>, known: set<Coord>,
                    start: Coord, goal: Coord, floor: nat, d: map<Coord, nat>)
    requires Settling(cells, queue, visited, known, start) && RolesKept(base, cells)
    requires Optimal(base, cells, queue, visited, known, start, goal, floor)
    requires goal in known && forall y {:trigger y in queue} :: y in queue ==> At(cells, goal).distance.n <= At(cells, y).distance.n
    requires RolesKept(cells, marked) && d == DistRank(cells, known)
    requires ParentTree(marked, start, d) && Ranked(marked, start, d)
    ensures Sound(base, start, goal, true, Outcome(Some(Chain(marked, Some(goal), start, d)), marked))
  {
    var p := Chain(marked, Some(goal), start, d);
    ChainIsRoute(marked, start, d, goal);
    RolesKeptTrans(base, cells, marked);
    RolesKeptWalls(base, marked);
    SameWallsRoutes(base, marked, start, goal, p);
    forall w | Walk(base, start, w) && EndOf(start, w) == goal
      ensures |p| <= |w|
    {
      forall x | x in d && x !in visited
        ensures d[goal] <= d[x] + Heuristic(x, goal, false)
      {
        assert x in queue;
      }
      NoShorterWalk(base, start, goal, visited, d, d[goal], false, w);
    }
  }

  /** With an empty queue the goal is unreachable: the visited cells are closed under steps. */
  lemma QueueEmptied(base: Cells, cells: Cells, visited: set<Coord>, known: set<Coord>, start: Coord, goal: Coord, floor: nat)
    requires Settling(cells, [], visited, known, start) && RolesKept(base, cells)
    requires Optimal(base, cells, [], visited, known, start, goal, floor)
    ensures !Reachable(base, start, goal)
  {
    assert start in visited;
    forall u, x | u in visited && Adjacent(u, x) && Open(base, x)
      ensures x in visited
    {
      assert x in known;
    }
    ClosedRegionUnreachable(base, start, goal, visited);
  }

  /**
   * Every run of `Settle` from a state satisfying `Optimal` finds a path
   * exactly when the goal is reachable, and the path is a shortest route.
   */
  lemma {:induction false} SettleCorrect(base: Cells, cells: Cells, queue: seq<Coord>, visited: set<Coord>,
                                         known: set<Coord>, start: Coord, goal: Coord, floor: nat)
    requires Settling(cells, queue, visited, known, start) && RolesKept(base, cells)
    requires Optimal(base, cells, queue, visited, known, start, goal, floor)
    ensures Sound(base, start, goal, true, Settle(cells, queue, visited, start, goal, known))
    decreases |CellsOf(cells) - visited|, |queue|
  {
    SettleValid(base, cells, queue, visited, known, start, goal);
    if |queue| == 0 {
      QueueEmptied(base, cells, visited, known, start, goal, floor);
    } else {
      HeadNearest(cells, queue, visited, known, start);
      var sorted := SortQueue(cells, queue, ByDistance);
      var current := sorted[0];
      OptimalSorted(base, cells, queue, sorted, visited, known, start, goal, floor);
      if current in visited {
        OptimalSkip(base, cells, sorted, visited, known, start, goal, floor);
        SettleCorrect(base, cells, sorted[1..], visited, known, start, goal, floor);
      } else {
        CheckedSettles(cells, sorted, visited, known, start);
        if current == goal {
          var marked := Checked(cells, goal);
          TreeRanked(marked, start, DistRank(marked, known));
          GoalSettled(base, cells, marked, queue, visited, known, start, goal, floor, DistRank(marked, known));
        } else {
          var s := RelaxTurn(cells, sorted, visited);
          OptimalTurn(base, cells, sorted, visited, known, start, goal, floor);
          TurnProgress(cells, sorted, visited, known, start);
          SettleCorrect(base, s.cells, s.frontier, s.visited, known + Members(s.frontier), start, goal,
                        At(cells, current).distance.n);
        }
      }
    }
  }

  /** On any grid, `dijkstra` changes only search state and returns only routes from the start to the goal. */
  lemma DijkstraValid(cells: Cells, start: Coord, goal: Coord)
    requires Layout(cells) && InBounds(cells, start)
    ensures var o := DijkstraOutcome(cells, start, goal);
      RolesKept(cells, o.cells) && (o.path.Some? ==> Route(cells, start, goal, o.path.value))
  {
    var seeded := Seeded(cells, start);
    assert RolesKept(cells, seeded);
    SettleValid(cells, seeded, [start], {}, {start}, start, goal);
  }

  /**
   * When every distance but the start's is `Infinity` on entry, `dijkstra`
   * finds a path exactly when the goal is reachable, and the path is a
   * shortest route.
   */
  lemma DijkstraCorrect(cells: Cells, start: Coord, goal: Coord)
    requires Layout(cells) && InBounds(cells, start)
    requires forall c :: InBounds(cells, c) && c != start ==> At(cells, c).distance == Inf
    ensures var o := DijkstraOutcome(cells, start, goal);
      RolesKept(cells, o.cells) &&
      (o.path.Some? <==> Reachable(cells, start, goal)) &&
      (o.path.Some? ==> ShortestRoute(cells, start, goal, o.path.value))
  {
    var seeded := Seeded(cells, start);
    assert RolesKept(cells, seeded);
    assert Optimal(cells, seeded, [start], {}, {start}, start, goal, 0);
    SettleCorrect(cells, seeded, [start], {}, {start}, start, goal, 0);
  }
}
