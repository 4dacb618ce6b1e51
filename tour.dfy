/**
 * The loop of `computePaths`: a tour through the selections, one leg per
 * target. Each leg marks its target as goal, clears search state, searches
 * from the current start, marks the cells of the path it found, and, unless
 * the target is the last selection, makes the target the next start.
 *
 * The engine's `computePaths` prepares a copy of the grid from the
 * selections first; the plain script's version clears its own grid and
 * marks only the first selection. Both then run these legs.
 */
module Tour {
  import opened Types
  import opened GridModel
  import opened Adjacency
  import opened Walks
  import Dispatch
  import Labels

  /** No cell of the grid is a wall. */
  ghost predicate NoWalls(cells: Cells)
    requires Rectangular(cells)
  {
    forall c :: InBounds(cells, c) ==> !At(cells, c).solid
  }

  // ---------------------------------------------------------------------
  // Marking a path
  // ---------------------------------------------------------------------

  /** `path.forEach(markPath)` for every cell other than `from` and `target`. */
  function MarkedAlong(cells: Cells, p: seq<Coord>, from: Coord, target: Coord): (r: Cells)
    requires Rectangular(cells) && forall x :: x in p ==> InBounds(cells, x)
    ensures Rectangular(r) && SameShape(r, cells) && (Layout(cells) ==> Layout(r))
    decreases |p|
  {
    if |p| == 0 then cells
    else
      var next := if p[0] != from && p[0] != target then Put(cells, p[0], PathMarked(At(cells, p[0]))) else cells;
      assert SameShape(next, cells);
      assert forall x :: x in p[1..] ==> x in p;
      assert forall x :: x in p ==> InBounds(cells, x);
      assert Cols(next) == Cols(cells) && Rows(next) == Rows(cells);
      assert forall x :: x in p[1..] ==> InBounds(next, x);
      MarkedAlong(next, p[1..], from, target)
  }

  /** Exactly the cells of `p` other than `from` and `target` are marked as path; all others are untouched. */
  lemma {:induction false} MarkedAlongCells(cells: Cells, p: seq<Coord>, from: Coord, target: Coord, c: Coord)
    requires Rectangular(cells) && (forall x :: x in p ==> InBounds(cells, x)) && InBounds(cells, c)
    ensures At(MarkedAlong(cells, p, from, target), c) ==
      if c in p && c != from && c != target then PathMarked(At(cells, c)) else At(cells, c)
    decreases |p|
  {
    if |p| > 0 {
      var next := if p[0] != from && p[0] != target then Put(cells, p[0], PathMarked(At(cells, p[0]))) else cells;
      assert SameShape(next, cells);
      assert forall x :: x in p[1..] ==> x in p;
      MarkedAlongCells(next, p[1..], from, target, c);
      assert c in p <==> c == p[0] || c in p[1..];
    }
  }

  /** Marks a path on an in-place grid. */
  method MarkAlong(g: array2<Node>, p: seq<Coord>, from: Coord, target: Coord)
    requires forall x :: x in p ==> InBounds(View(g), x)
    modifies g
    ensures View(g) == MarkedAlong(old(View(g)), p, from, target)
  {
    for k := 0 to |p|
      invariant Rectangular(View(g)) && forall x :: x in p[k..] ==> InBounds(View(g), x)
      invariant MarkedAlong(View(g), p[k..], from, target) == MarkedAlong(old(View(g)), p, from, target)
    {
      ghost var before := View(g);
      assert p[k] in p[k..] && p[k..][1..] == p[k + 1..];
      if p[k] != from && p[k] != target {
        MarkPath(g, p[k]);
      }
      assert View(g) == if p[k] != from && p[k] != target then Put(before, p[k], PathMarked(At(before, p[k]))) else before;
      forall x | x in p[k + 1..]
        ensures InBounds(View(g), x)
      {
        assert x in p[k..] && InBounds(before, x);
      }
    }
  }

  // ---------------------------------------------------------------------
  // One leg
  // ---------------------------------------------------------------------

  /** The grid a leg searches: the target marked as goal, then the search state cleared. */
  function Aimed(cells: Cells, target: Coord): (r: Cells)
    requires Layout(cells) && InBounds(cells, target)
    ensures Layout(r) && SameShape(r, cells) && SearchCleared(r)
  {
    var goalMarked := Put(cells, target, GoalMarked(At(cells, target)));
    ClearedState(goalMarked);
    ClearedCells(goalMarked)
  }

  /**
   * Aiming gives the target the goal role, keeps every other cell's roles,
   * and empties the label of every cell left without a role.
   */
  lemma AimedCell(cells: Cells, target: Coord, c: Coord)
    requires Layout(cells) && InBounds(cells, target) && InBounds(cells, c)
    ensures var n := At(cells, c);
      var m := if c == target then GoalMarked(n) else n;
      SameRole(At(Aimed(cells, target), c), m) &&
      At(Aimed(cells, target), c).baseLabel == if KeepsLabel(m) then m.baseLabel else ""
  {
    ClearedState(Put(cells, target, GoalMarked(At(cells, target))));
  }

  /** Aiming keeps the walls. */
  lemma AimedWalls(cells: Cells, target: Coord)
    requires Layout(cells) && InBounds(cells, target)
    ensures SameWalls(cells, Aimed(cells, target))
  {
    ClearedState(Put(cells, target, GoalMarked(At(cells, target))));
  }

  /** A search from a cell to a target, as `findPath` runs it on the grid a leg has aimed. */
  type Search = (Cells, Coord, Coord) -> Outcome

  /**
   * What a leg relies on from the outcome `o` of its search: it changes only
   * search state of the grid aimed at the target, and a path it returns is a
   * route from `from` to `target` through cells on the grid.
   */
  ghost predicate LegOutcome(cells: Cells, from: Coord, target: Coord, o: Outcome)
    requires Layout(cells) && InBounds(cells, target)
  {
    Layout(o.cells) && SameShape(o.cells, cells) && RolesKept(Aimed(cells, target), o.cells) &&
    (o.path.Some? ==> Route(cells, from, target, o.path.value) && forall x :: x in o.path.value ==> InBounds(o.cells, x))
  }

  /** A search that gives such an outcome on every grid with its ends on it. */
  ghost predicate Searches(search: Search)
  {
    forall cells, from, target {:trigger search(cells, from, target)} ::
      Layout(cells) && InBounds(cells, from) && InBounds(cells, target) ==>
        LegOutcome(cells, from, target, search(cells, from, target))
  }

  /**
   * The search of a leg with algorithm `alg`: the target marked as goal,
   * search state cleared, then `findPath`.
   */
  function LegSearch(cells: Cells, from: Coord, target: Coord, alg: AlgorithmId): (o: Outcome)
    requires Layout(cells) && InBounds(cells, from) && InBounds(cells, target)
    ensures LegOutcome(cells, from, target, o)
  {
    var o := Dispatch.FindPathOutcome(Aimed(cells, target), from, target, alg);
    AimedOutcome(cells, from, target, o);
    o
  }

  /** An outcome that keeps the roles of the aimed grid and returns only routes on it is what a leg relies on. */
  lemma AimedOutcome(cells: Cells, from: Coord, target: Coord, o: Outcome)
    requires Layout(cells) && InBounds(cells, target)
    requires Layout(o.cells) && RolesKept(Aimed(cells, target), o.cells)
    requires o.path.Some? ==> Route(Aimed(cells, target), from, target, o.path.value)
    ensures LegOutcome(cells, from, target, o)
  {
    if o.path.Some? {
      AimedRoute(cells, from, target, o.path.value);
      assert SameShape(o.cells, cells);
    }
  }

  /** A route on the aimed grid is a route on the grid, through cells on it. */
  lemma AimedRoute(cells: Cells, from: Coord, target: Coord, p: seq<Coord>)
    requires Layout(cells) && InBounds(cells, target)
    requires Route(Aimed(cells, target), from, target, p)
    ensures Route(cells, from, target, p) && forall x :: x in p ==> InBounds(cells, x)
  {
    AimedWalls(cells, target);
    SameWallsRoutes(cells, Aimed(cells, target), from, target, p);
    Dispatch.WalkOnGrid(cells, from, p);
  }

  /** `LegSearch` for `alg` as a search; it is only ever applied to grids with both ends on them. */
  function SearchWith(alg: AlgorithmId): (search: Search)
    ensures Searches(search)
  {
    (cells: Cells, from: Coord, target: Coord) =>
      if Layout(cells) && InBounds(cells, from) && InBounds(cells, target) then LegSearch(cells, from, target, alg)
      else Outcome(None, cells)
  }

  lemma SearchWithIs(alg: AlgorithmId, cells: Cells, from: Coord, target: Coord)
    requires Layout(cells) && InBounds(cells, from) && InBounds(cells, target)
    ensures SearchWith(alg)(cells, from, target) == LegSearch(cells, from, target, alg)
  {
  }

  /**
   * The markings that end a leg with search outcome `o`: the path found,
   * then, unless this is the last target, `markPath` and `markStart` on the
   * target.
   */
  function Marked(o: Outcome, from: Coord, target: Coord, last: bool): (r: Cells)
    requires Layout(o.cells) && InBounds(o.cells, target)
    requires o.path.Some? ==> forall x :: x in o.path.value ==> InBounds(o.cells, x)
    ensures Layout(r) && SameShape(r, o.cells)
  {
    var marked := if o.path.Some? then MarkedAlong(o.cells, o.path.value, from, target) else o.cells;
    if last then marked
    else
      var pathMarked := Put(marked, target, PathMarked(At(marked, target)));
      Put(pathMarked, target, StartMarked(At(pathMarked, target)))
  }

  /** What the markings do to one cell. */
  lemma MarkedCell(o: Outcome, from: Coord, target: Coord, last: bool, c: Coord)
    requires Layout(o.cells) && InBounds(o.cells, target) && InBounds(o.cells, c)
    requires o.path.Some? ==> forall x :: x in o.path.value ==> InBounds(o.cells, x)
    ensures var n := At(o.cells, c);
      At(Marked(o, from, target, last), c) ==
        if c == target then (if last then n else StartMarked(PathMarked(n)))
        else if o.path.Some? && c in o.path.value && c != from then PathMarked(n)
        else n
  {
    if o.path.Some? {
      MarkedAlongCells(o.cells, o.path.value, from, target, c);
    }
  }

  /** One pass of the loop of `computePaths`, for the target `target` reached from `from`. */
  function Leg(search: Search, cells: Cells, from: Coord, target: Coord, last: bool): (r: Cells)
    requires Searches(search) && Layout(cells) && InBounds(cells, from) && InBounds(cells, target)
    ensures Layout(r) && SameShape(r, cells)
  {
    Marked(search(cells, from, target), from, target, last)
  }

  /**
   * The target of a leg keeps its wall flag. On the last leg it becomes the
   * goal labelled `G` and keeps its waypoint and path flags (`markGoal`
   * clears only the start flag); on the others it becomes the next start,
   * with no other role and an empty label.
   */
  lemma LegTarget(search: Search, cells: Cells, from: Coord, target: Coord, last: bool)
    requires Searches(search) && Layout(cells) && InBounds(cells, from) && InBounds(cells, target)
    ensures var r := At(Leg(search, cells, from, target, last), target);
      var n := At(cells, target);
      r.solid == n.solid &&
      (last ==> r.goal && !r.start && r.waypoint == n.waypoint && r.path == n.path && r.baseLabel == "G") &&
      (!last ==> r.start && !r.goal && !r.waypoint && !r.path && r.baseLabel == "")
  {
    var o := search(cells, from, target);
    AimedCell(cells, target, target);
    assert SameRole(At(Aimed(cells, target), target), At(o.cells, target));
    assert At(Aimed(cells, target), target).baseLabel == At(o.cells, target).baseLabel;
    MarkedCell(o, from, target, last, target);
  }

  /**
   * Every other cell keeps its wall flag. A cell on the path found, other
   * than `from`, is marked as path; any other cell keeps its roles and loses
   * its label only if it has no role.
   */
  lemma LegOthers(search: Search, cells: Cells, from: Coord, target: Coord, last: bool, c: Coord)
    requires Searches(search) && Layout(cells) && InBounds(cells, from) && InBounds(cells, target)
    requires InBounds(cells, c) && c != target
    ensures var r := At(Leg(search, cells, from, target, last), c);
      var n := At(cells, c);
      var o := search(cells, from, target);
      r.solid == n.solid &&
      (o.path.Some? && c in o.path.value && c != from ==>
        r.path && !r.start && !r.goal && !r.waypoint && r.baseLabel == "P") &&
      (!(o.path.Some? && c in o.path.value && c != from) ==>
        SameRole(r, n) && r.baseLabel == if KeepsLabel(n) then n.baseLabel else "")
  {
    var o := search(cells, from, target);
    AimedCell(cells, target, c);
    assert SameRole(At(Aimed(cells, target), c), At(o.cells, c));
    assert At(Aimed(cells, target), c).baseLabel == At(o.cells, c).baseLabel;
    MarkedCell(o, from, target, last, c);
  }

  /** A leg keeps the walls. */
  lemma LegWalls(search: Search, cells: Cells, from: Coord, target: Coord, last: bool)
    requires Searches(search) && Layout(cells) && InBounds(cells, from) && InBounds(cells, target)
    ensures SameWalls(cells, Leg(search, cells, from, target, last))
  {
    forall c | InBounds(cells, c)
      ensures At(cells, c).solid == At(Leg(search, cells, from, target, last), c).solid
    {
      if c == target {
        LegTarget(search, cells, from, target, last);
      } else {
        LegOthers(search, cells, from, target, last, c);
      }
    }
  }

  /**
   * A leg finds a path exactly when the target is reachable from `from`
   * through walkable cells; the path is a route, and a shortest one for
   * every algorithm but depth-first search.
   */
  lemma LegFinds(cells: Cells, from: Coord, target: Coord, alg: AlgorithmId)
    requires Layout(cells) && InBounds(cells, from) && InBounds(cells, target)
    ensures var o := LegSearch(cells, from, target, alg);
      (o.path.Some? <==> Reachable(cells, from, target)) &&
      (o.path.Some? ==> Route(cells, from, target, o.path.value)) &&
      (o.path.Some? && alg != Dfs ==> ShortestRoute(cells, from, target, o.path.value))
  {
    var aimed := Aimed(cells, target);
    var o := LegSearch(cells, from, target, alg);
    Dispatch.FindPathComplete(aimed, from, target, alg);
    AimedWalls(cells, target);
    SameWallsRoutes(cells, aimed, from, target, if o.path.Some? then o.path.value else []);
  }

  /**
   * On a grid without walls every leg finds a path, and every algorithm
   * but depth-first search finds one as long as the Manhattan distance.
   */
  lemma LegOpen(cells: Cells, from: Coord, target: Coord, alg: AlgorithmId)
    requires Layout(cells) && InBounds(cells, from) && InBounds(cells, target) && NoWalls(cells)
    ensures var o := LegSearch(cells, from, target, alg);
      o.path.Some? && (alg != Dfs ==> |o.path.value| == Manhattan(from, target))
  {
    LegFinds(cells, from, target, alg);
    StraightWalkIsWalk(cells, from, target);
    var o := LegSearch(cells, from, target, alg);
    if alg != Dfs {
      OpenGridDistance(cells, from, target, o.path.value);
    }
  }

  // ---------------------------------------------------------------------
  // The loop
  // ---------------------------------------------------------------------

  /**
   * The loop of `computePaths` from selection `i` on, with the current leg
   * starting at `from`: targets off the grid are skipped, and the next leg
   * starts at the target just handled, whether or not it was reached.
   */
  function Legs(search: Search, cells: Cells, sel: seq<Coord>, i: nat, from: Coord): (r: Cells)
    requires Searches(search) && Layout(cells) && 1 <= i <= |sel| && InBounds(cells, from)
    ensures Layout(r) && SameShape(r, cells)
    decreases |sel| - i
  {
    if i == |sel| then cells
    else if !InBounds(cells, sel[i]) then Legs(search, cells, sel, i + 1, from)
    else
      var last := i == |sel| - 1;
      Legs(search, Leg(search, cells, from, sel[i], last), sel, i + 1, if last then from else sel[i])
  }

  /** The legs on an in-place grid whose first selection is already marked as start. */
  method MarkLegs(g: array2<Node>, sel: seq<Coord>, alg: AlgorithmId)
    requires Layout(View(g)) && 1 <= |sel| && InBounds(View(g), sel[0])
    modifies g
    ensures View(g) == Legs(SearchWith(alg), old(View(g)), sel, 1, sel[0])
  {
    var current := sel[0];
    for i := 1 to |sel|
      invariant Layout(View(g)) && SameShape(View(g), old(View(g))) && InBounds(View(g), current)
      invariant Legs(SearchWith(alg), View(g), sel, i, current) == Legs(SearchWith(alg), old(View(g)), sel, 1, sel[0])
    {
      var target := sel[i];
      if !InBounds(View(g), target) {
        continue;
      }
      LegsUnfold(SearchWith(alg), View(g), sel, i, current);
      RunLeg(g, current, target, alg, i == |sel| - 1);
      if i < |sel| - 1 {
        current := target;
      }
    }
  }

  /** One leg on an in-place grid. */
  method RunLeg(g: array2<Node>, from: Coord, target: Coord, alg: AlgorithmId, last: bool)
    requires Layout(View(g)) && InBounds(View(g), from) && InBounds(View(g), target)
    modifies g
    ensures View(g) == Leg(SearchWith(alg), old(View(g)), from, target, last)
  {
    MarkGoal(g, target);
    ClearTransientSearchState(g);
    assert View(g) == Aimed(old(View(g)), target);
    var path := Dispatch.FindPath(g, from, target, alg);
    SearchWithIs(alg, old(View(g)), from, target);
    FinishLeg(g, path, from, target, last);
  }

  /** The markings that end a leg, on an in-place grid. */
  method FinishLeg(g: array2<Node>, path: Option<seq<Coord>>, from: Coord, target: Coord, last: bool)
    requires Layout(View(g)) && InBounds(View(g), target)
    requires path.Some? ==> forall x :: x in path.value ==> InBounds(View(g), x)
    modifies g
    ensures View(g) == Marked(Outcome(path, old(View(g))), from, target, last)
  {
    if path.Some? {
      MarkAlong(g, path.value, from, target);
    }
    if !last {
      MarkPath(g, target);
      MarkStart(g, target);
    }
  }

  /** The engine's `computePaths` from the prepared grid: the first selection marked as start. */
  function Started(cells: Cells, first: Coord): (r: Cells)
    requires Layout(cells) && InBounds(cells, first)
    ensures Layout(r) && SameShape(r, cells)
  {
    Put(cells, first, StartMarked(At(cells, first)))
  }

  /**
   * The engine's `computePaths` as a function of the grid, the selections
   * and the algorithm.
   */
  function ComputedPaths(grid: Cells, sel: seq<Coord>, alg: AlgorithmId): (r: Cells)
    requires Layout(grid)
    ensures Layout(r) && SameShape(r, grid)
  {
    Toured(Prepared(grid, sel), sel, alg)
  }

  /**
   * The whole tour from a grid on which no start is marked yet: nothing
   * without selections or when the first one is off the grid, otherwise
   * the first selection marked as start and then the legs.
   */
  function Toured(cells: Cells, sel: seq<Coord>, alg: AlgorithmId): (r: Cells)
    requires Layout(cells)
    ensures Layout(r) && SameShape(r, cells)
  {
    if |sel| == 0 || !InBounds(cells, sel[0]) then cells
    else Legs(SearchWith(alg), Started(cells, sel[0]), sel, 1, sel[0])
  }

  /** The whole tour on an in-place grid. */
  method MarkTour(g: array2<Node>, sel: seq<Coord>, alg: AlgorithmId)
    requires Layout(View(g))
    modifies g
    ensures View(g) == Toured(old(View(g)), sel, alg)
  {
    if |sel| == 0 || !InBounds(View(g), sel[0]) {
      return;
    }
    MarkStart(g, sel[0]);
    MarkLegs(g, sel, alg);
  }

  /** The engine's `computePaths`: a new grid; the one passed in is left as it was. */
  method ComputePaths(grid: array2<Node>, sel: seq<Coord>, alg: AlgorithmId) returns (working: array2<Node>)
    requires Layout(View(grid))
    ensures fresh(working)
    ensures View(working) == ComputedPaths(View(grid), sel, alg)
  {
    working := PrepareGridForSelections(grid, sel);
    MarkTour(working, sel, alg);
  }

  /** Without selections, `computePaths` returns a freshly created grid of the same size. */
  lemma ComputedPathsEmpty(grid: Cells, alg: AlgorithmId)
    requires Layout(grid)
    ensures ComputedPaths(grid, [], alg) == CreateGrid(Cols(grid), Rows(grid))
  {
    PreparedEmpty(grid);
  }

  /** The prepared grid has no walls: `resetGrid` clears every wall flag. */
  lemma PreparedOpen(grid: Cells, sel: seq<Coord>)
    requires Layout(grid)
    ensures NoWalls(Prepared(grid, sel))
  {
    PreparedRoles(grid, sel);
    forall c | InBounds(Prepared(grid, sel), c)
      ensures !At(Prepared(grid, sel), c).solid
    {
      if c in sel {
        MarkersSetRoles(CreateNode(c.col, c.row), LastIndex(sel, c));
      }
    }
  }

  /** One pass of the loop of `Legs`. */
  lemma LegsUnfold(search: Search, cells: Cells, sel: seq<Coord>, i: nat, from: Coord)
    requires Searches(search) && Layout(cells) && 1 <= i < |sel| && InBounds(cells, from)
    ensures !InBounds(cells, sel[i]) ==> Legs(search, cells, sel, i, from) == Legs(search, cells, sel, i + 1, from)
    ensures InBounds(cells, sel[i]) && i < |sel| - 1 ==>
      Legs(search, cells, sel, i, from) == Legs(search, Leg(search, cells, from, sel[i], false), sel, i + 1, sel[i])
    ensures InBounds(cells, sel[i]) && i == |sel| - 1 ==>
      Legs(search, cells, sel, i, from) == Leg(search, cells, from, sel[i], true)
  {
  }

  /** The legs keep the walls. */
  lemma {:induction false} LegsWalls(search: Search, cells: Cells, sel: seq<Coord>, i: nat, from: Coord)
    requires Searches(search) && Layout(cells) && 1 <= i <= |sel| && InBounds(cells, from)
    ensures SameWalls(cells, Legs(search, cells, sel, i, from))
    decreases |sel| - i
  {
    if i < |sel| {
      LegsUnfold(search, cells, sel, i, from);
      if !InBounds(cells, sel[i]) {
        LegsWalls(search, cells, sel, i + 1, from);
      } else {
        var last := i == |sel| - 1;
        var next := Leg(search, cells, from, sel[i], last);
        LegWalls(search, cells, from, sel[i], last);
        LegsWalls(search, next, sel, i + 1, if last then from else sel[i]);
        Walks.SameWallsTrans(cells, next, Legs(search, next, sel, i + 1, if last then from else sel[i]));
      }
    }
  }

  /** A grid with the walls of one without walls has none. */
  lemma NoWallsKept(a: Cells, b: Cells)
    requires SameWalls(a, b) && NoWalls(a)
    ensures NoWalls(b)
  {
  }

  /** The cell `t` is the goal, labelled `G`, and not the start. */
  predicate GoalAt(cells: Cells, t: Coord)
    requires Rectangular(cells) && InBounds(cells, t)
  {
    At(cells, t).goal && !At(cells, t).start && At(cells, t).baseLabel == "G"
  }

  /** From selection `i` on, the legs leave the last selection, when it is on the grid, as the goal labelled `G`. */
  lemma {:induction false} LegsEndAtGoal(search: Search, cells: Cells, sel: seq<Coord>, i: nat, from: Coord)
    requires Searches(search) && Layout(cells) && 1 <= i < |sel| && InBounds(cells, from)
    requires InBounds(cells, sel[|sel| - 1])
    ensures GoalAt(Legs(search, cells, sel, i, from), sel[|sel| - 1])
    decreases |sel| - i
  {
    LegsUnfold(search, cells, sel, i, from);
    if !InBounds(cells, sel[i]) {
      LegsEndAtGoal(search, cells, sel, i + 1, from);
    } else if i == |sel| - 1 {
      LegTarget(search, cells, from, sel[i], true);
    } else {
      LegsEndAtGoal(search, Leg(search, cells, from, sel[i], false), sel, i + 1, sel[i]);
    }
  }

  /**
   * With at least two selections, the first and the last on the grid,
   * `computePaths` leaves the last selection as the goal, labelled `G`.
   */
  lemma ComputedPathsGoal(grid: Cells, sel: seq<Coord>, alg: AlgorithmId)
    requires Layout(grid) && |sel| >= 2 && InBounds(grid, sel[0]) && InBounds(grid, sel[|sel| - 1])
    ensures GoalAt(ComputedPaths(grid, sel, alg), sel[|sel| - 1])
  {
    PreparedRoles(grid, sel);
    LegsEndAtGoal(SearchWith(alg), Started(Prepared(grid, sel), sel[0]), sel, 1, sel[0]);
  }

  /**
   * `computePaths` works on a grid without walls, whatever the grid passed
   * in: preparing it clears every wall flag, and the legs keep them.
   */
  lemma ComputedPathsOpen(grid: Cells, sel: seq<Coord>, alg: AlgorithmId)
    requires Layout(grid)
    ensures NoWalls(ComputedPaths(grid, sel, alg))
  {
    PreparedRoles(grid, sel);
    var prepared := Prepared(grid, sel);
    PreparedOpen(grid, sel);
    if |sel| > 0 && InBounds(prepared, sel[0]) {
      var working := Started(prepared, sel[0]);
      StartedWalls(prepared, sel[0]);
      LegsWalls(SearchWith(alg), working, sel, 1, sel[0]);
      Walks.SameWallsTrans(prepared, working, Legs(SearchWith(alg), working, sel, 1, sel[0]));
      NoWallsKept(prepared, Legs(SearchWith(alg), working, sel, 1, sel[0]));
    }
  }

  /** No cell of the grid is flagged as a waypoint. */
  ghost predicate NoWaypoints(cells: Cells)
    requires Rectangular(cells)
  {
    forall c :: InBounds(cells, c) ==> !At(cells, c).waypoint
  }

  /** A leg flags no new waypoint. */
  lemma LegNoWaypoints(search: Search, cells: Cells, from: Coord, target: Coord, last: bool)
    requires Searches(search) && Layout(cells) && InBounds(cells, from) && InBounds(cells, target)
    requires NoWaypoints(cells)
    ensures NoWaypoints(Leg(search, cells, from, target, last))
  {
    forall c | InBounds(cells, c)
      ensures !At(Leg(search, cells, from, target, last), c).waypoint
    {
      if c == target {
        LegTarget(search, cells, from, target, last);
      } else {
        LegOthers(search, cells, from, target, last, c);
      }
    }
  }

  /** The legs flag no new waypoint. */
  lemma {:induction false} LegsNoWaypoints(search: Search, cells: Cells, sel: seq<Coord>, i: nat, from: Coord)
    requires Searches(search) && Layout(cells) && 1 <= i <= |sel| && InBounds(cells, from)
    requires NoWaypoints(cells)
    ensures NoWaypoints(Legs(search, cells, sel, i, from))
    decreases |sel| - i
  {
    if i < |sel| {
      LegsUnfold(search, cells, sel, i, from);
      if !InBounds(cells, sel[i]) {
        LegsNoWaypoints(search, cells, sel, i + 1, from);
      } else {
        var last := i == |sel| - 1;
        LegNoWaypoints(search, cells, from, sel[i], last);
        LegsNoWaypoints(search, Leg(search, cells, from, sel[i], last), sel, i + 1, if last then from else sel[i]);
      }
    }
  }

  /** The grid the engine's `computePaths` runs its single leg on, for selections `[a, b]`. */
  lemma OneLegStart(grid: Cells, a: Coord, b: Coord)
    requires Layout(grid) && InBounds(grid, a) && InBounds(grid, b) && a != b
    ensures var working := Started(Prepared(grid, [a, b]), a);
      At(working, a).start && !At(working, a).path &&
      At(working, b).waypoint && !At(working, b).path &&
      forall c :: InBounds(grid, c) && c != a && c != b ==> !At(working, c).path
  {
    var sel := [a, b];
    PreparedRoles(grid, sel);
    PreparedOpen(grid, sel);
    assert LastIndex(sel, a) == 0 && LastIndex(sel, b) == 1;
    MarkersSetRoles(CreateNode(a.col, a.row), 0);
    MarkersSetRoles(CreateNode(b.col, b.row), 1);
  }

  /** The grid the legs of the engine's `computePaths` start from has no walls. */
  lemma StartedOpen(grid: Cells, sel: seq<Coord>)
    requires Layout(grid) && |sel| > 0 && InBounds(grid, sel[0])
    ensures NoWalls(Started(Prepared(grid, sel), sel[0]))
  {
    PreparedOpen(grid, sel);
    StartedWalls(Prepared(grid, sel), sel[0]);
    NoWallsKept(Prepared(grid, sel), Started(Prepared(grid, sel), sel[0]));
  }

  /** Marking the start keeps the walls. */
  lemma StartedWalls(cells: Cells, first: Coord)
    requires Layout(cells) && InBounds(cells, first)
    ensures SameWalls(cells, Started(cells, first))
  {
    MarkersSetRoles(At(cells, first), 0);
  }

  /**
   * With two distinct selections on the grid, the engine's `computePaths`
   * leaves the first as the start, and the second as the goal labelled `G`
   * that is still flagged as a waypoint (`markGoal` leaves the waypoint
   * flag of the prepared grid alone). Exactly the cells of the path found,
   * other than its ends, are marked as path.
   */
  lemma ComputedPathsOneLeg(grid: Cells, a: Coord, b: Coord, alg: AlgorithmId)
    requires Layout(grid) && InBounds(grid, a) && InBounds(grid, b) && a != b
    ensures var r := ComputedPaths(grid, [a, b], alg);
      var o := LegSearch(Started(Prepared(grid, [a, b]), a), a, b, alg);
      At(r, a).start && !At(r, a).path &&
      GoalAt(r, b) && At(r, b).waypoint && !At(r, b).path &&
      o.path.Some? &&
      forall c :: InBounds(grid, c) && c != a && c != b ==> (At(r, c).path <==> c in o.path.value)
  {
    var sel := [a, b];
    OneLegStart(grid, a, b);
    StartedOpen(grid, sel);
    var working := Started(Prepared(grid, sel), a);
    var search := SearchWith(alg);
    LegsUnfold(search, working, sel, 1, a);
    assert ComputedPaths(grid, sel, alg) == Leg(search, working, a, b, true);
    SearchWithIs(alg, working, a, b);
    LegOpen(working, a, b, alg);
    LegTarget(search, working, a, b, true);
    LegOthers(search, working, a, b, true, a);
    forall c | InBounds(grid, c) && c != a && c != b
      ensures At(Leg(search, working, a, b, true), c).path <==> c in LegSearch(working, a, b, alg).path.value
    {
      LegOthers(search, working, a, b, true, c);
    }
  }

  /**
   * For every algorithm but depth-first search, the path of that single leg
   * is a shortest one: as long as the Manhattan distance between the two
   * selections, since the prepared grid has no walls.
   */
  lemma ComputedPathsOneLegShortest(grid: Cells, a: Coord, b: Coord, alg: AlgorithmId)
    requires Layout(grid) && InBounds(grid, a) && InBounds(grid, b) && a != b && alg != Dfs
    ensures var o := LegSearch(Started(Prepared(grid, [a, b]), a), a, b, alg);
      o.path.Some? && |o.path.value| == Manhattan(a, b)
  {
    StartedOpen(grid, [a, b]);
    LegOpen(Started(Prepared(grid, [a, b]), a), a, b, alg);
  }

  /** Every cell carries one of the labels the markers give: none, `G`, `P` or `W<k>`. */
  ghost predicate KnownLabels(cells: Cells)
    requires Rectangular(cells)
  {
    forall c :: InBounds(cells, c) ==> Labels.RoleLabel(At(cells, c).baseLabel)
  }

  /** A prepared grid carries only marker labels: none, or a waypoint's. */
  lemma PreparedLabels(grid: Cells, sel: seq<Coord>)
    requires Layout(grid)
    ensures KnownLabels(Prepared(grid, sel))
  {
    PreparedRoles(grid, sel);
    var r := Prepared(grid, sel);
    forall c | InBounds(r, c)
      ensures Labels.RoleLabel(At(r, c).baseLabel)
    {
      if c in sel {
        var k := LastIndex(sel, c);
        MarkersSetRoles(CreateNode(c.col, c.row), k);
        if k > 0 {
          assert At(r, c).baseLabel == Labels.WaypointLabel(k);
        }
      }
    }
  }

  /** Marking the start keeps the labels known. */
  lemma StartedLabels(cells: Cells, first: Coord)
    requires Layout(cells) && InBounds(cells, first) && KnownLabels(cells)
    ensures KnownLabels(Started(cells, first))
  {
    MarkersSetRoles(At(cells, first), 0);
  }

  /** A leg keeps the labels known. */
  lemma LegLabels(search: Search, cells: Cells, from: Coord, target: Coord, last: bool)
    requires Searches(search) && Layout(cells) && InBounds(cells, from) && InBounds(cells, target)
    requires KnownLabels(cells)
    ensures KnownLabels(Leg(search, cells, from, target, last))
  {
    var r := Leg(search, cells, from, target, last);
    forall c | InBounds(r, c)
      ensures Labels.RoleLabel(At(r, c).baseLabel)
    {
      if c == target {
        LegTarget(search, cells, from, target, last);
      } else {
        LegOthers(search, cells, from, target, last, c);
      }
    }
  }

  /** The legs keep the labels known. */
  lemma {:induction false} LegsLabels(search: Search, cells: Cells, sel: seq<Coord>, i: nat, from: Coord)
    requires Searches(search) && Layout(cells) && 1 <= i <= |sel| && InBounds(cells, from)
    requires KnownLabels(cells)
    ensures KnownLabels(Legs(search, cells, sel, i, from))
    decreases |sel| - i
  {
    if i < |sel| {
      LegsUnfold(search, cells, sel, i, from);
      if !InBounds(cells, sel[i]) {
        LegsLabels(search, cells, sel, i + 1, from);
      } else {
        var last := i == |sel| - 1;
        LegLabels(search, cells, from, sel[i], last);
        LegsLabels(search, Leg(search, cells, from, sel[i], last), sel, i + 1, if last then from else sel[i]);
      }
    }
  }

  /**
   * With coordinates hidden, every cell of a `computePaths` result shows a
   * role label: nothing, `G`, `P` or a waypoint's `W<k>`.
   */
  lemma ComputedPathsLabels(grid: Cells, sel: seq<Coord>, alg: AlgorithmId, c: Coord)
    requires Layout(grid) && InBounds(grid, c)
    ensures Labels.RoleLabel(Labels.NodeLabel(At(ComputedPaths(grid, sel, alg), c), false))
  {
    var prepared := Prepared(grid, sel);
    PreparedLabels(grid, sel);
    if |sel| > 0 && InBounds(prepared, sel[0]) {
      StartedLabels(prepared, sel[0]);
      LegsLabels(SearchWith(alg), Started(prepared, sel[0]), sel, 1, sel[0]);
    }
  }
}
