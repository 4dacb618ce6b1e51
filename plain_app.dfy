/**
 * The plain script's copy of the visualiser: one global board state whose
 * node grid is changed in place by clicks, undo, reset and runs.
 *
 * Nodes are told apart by their coordinates, so the script's `===` on node
 * objects is equality of coordinates. The script's searches, markers and
 * resets are the same code as the engine's and are taken from it.
 */
module PlainApp {
  import opened Types
  import opened GridModel
  import opened Adjacency
  import Dispatch
  import Tour

  // ---------------------------------------------------------------------
  // Selections
  // ---------------------------------------------------------------------

  /** No selection repeats the one just before it. */
  predicate NoStutter(sel: seq<Coord>)
  {
    forall i :: 0 < i < |sel| ==> sel[i - 1] != sel[i]
  }

  /**
   * The selections after a click on `c`: ignored when `c` is the last
   * selection, appended otherwise (so a cell may come back later on).
   */
  function Clicked(sel: seq<Coord>, c: Coord): (r: seq<Coord>)
    ensures |r| == |sel| || |r| == |sel| + 1
    ensures |r| == |sel| + 1 <==> |sel| == 0 || sel[|sel| - 1] != c
    ensures r[..|sel|] == sel && r[|r| - 1] == c
    ensures NoStutter(sel) ==> NoStutter(r)
  {
    if |sel| > 0 && sel[|sel| - 1] == c then sel else sel + [c]
  }

  /** The selections after undo: the last one dropped, none left alone. */
  function Undone(sel: seq<Coord>): (r: seq<Coord>)
    ensures |sel| == 0 ==> r == []
    ensures |sel| > 0 ==> |r| == |sel| - 1 && r + [sel[|sel| - 1]] == sel
    ensures NoStutter(sel) ==> NoStutter(r)
  {
    if |sel| == 0 then sel else sel[..|sel| - 1]
  }

  /** Every selection is a cell of the board. */
  predicate OnBoard(cells: Cells, sel: seq<Coord>)
    requires Rectangular(cells)
  {
    forall i :: 0 <= i < |sel| ==> InBounds(cells, sel[i])
  }

  /** Undo takes back a click that was not ignored. */
  lemma UndoClick(sel: seq<Coord>, c: Coord)
    requires |sel| == 0 || sel[|sel| - 1] != c
    ensures Undone(Clicked(sel, c)) == sel
  {
    assert (sel + [c])[..|sel|] == sel;
  }

  /** A click on the last selection changes nothing, and clicking twice is clicking once. */
  lemma ClickTwice(sel: seq<Coord>, c: Coord)
    ensures Clicked(Clicked(sel, c), c) == Clicked(sel, c)
  {
  }

  // ---------------------------------------------------------------------
  // Algorithm names
  // ---------------------------------------------------------------------

  /** The name under which the script stores each algorithm. */
  function AlgorithmKey(a: AlgorithmId): string
  {
    match a
    case Bfs => "bfs"
    case Dfs => "dfs"
    case Dijkstra => "dijkstra"
    case AStar => "astar"
  }

  /** The search `findPath` runs for a stored name: anything unknown runs breadth-first search. */
  function AlgorithmFor(name: string): (a: AlgorithmId)
    ensures a == Dfs <==> name == "dfs"
    ensures a == Dijkstra <==> name == "dijkstra"
    ensures a == AStar <==> name == "astar"
    ensures a == Bfs <==> name != "dfs" && name != "dijkstra" && name != "astar"
  {
    if name == "dfs" then Dfs
    else if name == "dijkstra" then Dijkstra
    else if name == "astar" then AStar
    else Bfs
  }

  /** Every algorithm's stored name runs that algorithm, and the names are distinct. */
  lemma AlgorithmKeyRoundTrip(a: AlgorithmId, b: AlgorithmId)
    ensures AlgorithmFor(AlgorithmKey(a)) == a
    ensures AlgorithmKey(a) == AlgorithmKey(b) ==> a == b
  {
    assert AlgorithmFor(AlgorithmKey(a)) == a;
  }

  // ---------------------------------------------------------------------
  // A run of the script's `computePaths`
  // ---------------------------------------------------------------------

  /**
   * The script's `computePaths` as a function of the board: every node
   * cleared, the first selection marked as start, then the legs of the
   * tour. No selection is marked as a waypoint first.
   */
  function PlainComputed(cells: Cells, sel: seq<Coord>, alg: AlgorithmId): (r: Cells)
    requires Layout(cells) && OnBoard(cells, sel)
    ensures Layout(r) && SameShape(r, cells)
  {
    Tour.Toured(CreateGrid(Cols(cells), Rows(cells)), sel, alg)
  }

  /** The board a run's legs start from: all cleared, the first selection the start. */
  lemma PlainStarted(cells: Cells, first: Coord)
    requires Layout(cells) && InBounds(cells, first)
    ensures var w := Tour.Started(CreateGrid(Cols(cells), Rows(cells)), first);
      Tour.NoWalls(w) && Tour.NoWaypoints(w) &&
      At(w, first).start && !At(w, first).path &&
      forall c :: InBounds(cells, c) && c != first ==> !At(w, c).path && !At(w, c).start
  {
    MarkersSetRoles(CreateNode(first.col, first.row), 0);
  }

  /**
   * A run flags no cell as a waypoint: the clear removes every waypoint
   * flag and no leg sets one. In particular the last selection ends as the
   * goal and not as a waypoint.
   */
  lemma PlainComputedNoWaypoints(cells: Cells, sel: seq<Coord>, alg: AlgorithmId)
    requires Layout(cells) && OnBoard(cells, sel)
    ensures Tour.NoWaypoints(PlainComputed(cells, sel, alg))
  {
    if |sel| > 0 {
      PlainStarted(cells, sel[0]);
      Tour.LegsNoWaypoints(Tour.SearchWith(alg), Tour.Started(CreateGrid(Cols(cells), Rows(cells)), sel[0]), sel, 1, sel[0]);
    }
  }

  /** With two selections or more, the last selection ends as the goal labelled `G`, not a waypoint. */
  lemma PlainComputedGoal(cells: Cells, sel: seq<Coord>, alg: AlgorithmId)
    requires Layout(cells) && OnBoard(cells, sel)
    requires |sel| >= 2
    ensures var r := PlainComputed(cells, sel, alg);
      Tour.GoalAt(r, sel[|sel| - 1]) && !At(r, sel[|sel| - 1]).waypoint
  {
    PlainStarted(cells, sel[0]);
    Tour.LegsEndAtGoal(Tour.SearchWith(alg), Tour.Started(CreateGrid(Cols(cells), Rows(cells)), sel[0]), sel, 1, sel[0]);
    PlainComputedNoWaypoints(cells, sel, alg);
  }

  /** A run clears every wall of the board, and its legs set none. */
  lemma PlainComputedOpen(cells: Cells, sel: seq<Coord>, alg: AlgorithmId)
    requires Layout(cells) && OnBoard(cells, sel)
    ensures Tour.NoWalls(PlainComputed(cells, sel, alg))
  {
    if |sel| > 0 {
      PlainStarted(cells, sel[0]);
      var working := Tour.Started(CreateGrid(Cols(cells), Rows(cells)), sel[0]);
      Tour.LegsWalls(Tour.SearchWith(alg), working, sel, 1, sel[0]);
      Tour.NoWallsKept(working, Tour.Legs(Tour.SearchWith(alg), working, sel, 1, sel[0]));
    }
  }

  /**
   * With two distinct selections, a run leaves the first as the start and
   * the second as the goal; exactly the cells of the path found, other than
   * its ends, are marked as path.
   */
  lemma PlainComputedOneLeg(cells: Cells, a: Coord, b: Coord, alg: AlgorithmId)
    requires Layout(cells) && InBounds(cells, a) && InBounds(cells, b) && a != b
    ensures var r := PlainComputed(cells, [a, b], alg);
      var o := Tour.LegSearch(Tour.Started(CreateGrid(Cols(cells), Rows(cells)), a), a, b, alg);
      At(r, a).start && !At(r, a).path && Tour.GoalAt(r, b) && !At(r, b).path &&
      o.path.Some? &&
      forall c :: InBounds(cells, c) && c != a && c != b ==> (At(r, c).path <==> c in o.path.value)
  {
    var sel := [a, b];
    PlainStarted(cells, a);
    var working := Tour.Started(CreateGrid(Cols(cells), Rows(cells)), a);
    var search := Tour.SearchWith(alg);
    Tour.LegsUnfold(search, working, sel, 1, a);
    assert PlainComputed(cells, sel, alg) == Tour.Leg(search, working, a, b, true);
    Tour.SearchWithIs(alg, working, a, b);
    Tour.LegOpen(working, a, b, alg);
    Tour.LegTarget(search, working, a, b, true);
    Tour.LegOthers(search, working, a, b, true, a);
    forall c | InBounds(cells, c) && c != a && c != b
      ensures At(Tour.Leg(search, working, a, b, true), c).path <==> c in Tour.LegSearch(working, a, b, alg).path.value
    {
      Tour.LegOthers(search, working, a, b, true, c);
    }
  }

  /**
   * For every algorithm but depth-first search, the path of that single leg
   * is as long as the Manhattan distance between the two selections.
   */
  lemma PlainComputedOneLegShortest(cells: Cells, a: Coord, b: Coord, alg: AlgorithmId)
    requires Layout(cells) && InBounds(cells, a) && InBounds(cells, b) && a != b && alg != Dfs
    ensures var o := Tour.LegSearch(Tour.Started(CreateGrid(Cols(cells), Rows(cells)), a), a, b, alg);
      o.path.Some? && |o.path.value| == Manhattan(a, b)
  {
    PlainStarted(cells, a);
    Tour.LegOpen(Tour.Started(CreateGrid(Cols(cells), Rows(cells)), a), a, b, alg);
  }

  // ---------------------------------------------------------------------
  // The global state
  // ---------------------------------------------------------------------

  /** The script's `state` object; `showCoords` only affects drawing and is not kept. */
  class AppState {
    var cols: nat
    var rows: nat
    var nodes: array2<Node>
    var selections: seq<Coord>
    var algorithm: string

    /** The node grid has the board's size and positions, and every selection is on it. */
    ghost predicate Valid()
      reads this, nodes
    {
      nodes.Length0 == cols && nodes.Length1 == rows && cols > 0 &&
      Layout(View(nodes)) &&
      OnBoard(View(nodes), selections) &&
      NoStutter(selections)
    }

    /** The initial state: a fresh 16 by 12 board, no selections, breadth-first search. */
    constructor ()
      ensures Valid()
      ensures cols == COLS && rows == ROWS && View(nodes) == CreateGrid(COLS, ROWS)
      ensures selections == [] && algorithm == "bfs"
    {
      cols := COLS;
      rows := ROWS;
      var g := new Node[COLS, ROWS]((i, j) => CreateNode(i, j));
      CellsEqual(View(g), CreateGrid(COLS, ROWS));
      nodes := g;
      selections := [];
      algorithm := "bfs";
    }

    /** `getNode`: the node at `c`, or `None` outside `[0, cols) x [0, rows)`. */
    method GetNode(c: Coord) returns (n: Option<Node>)
      requires Valid()
      ensures n.None? <==> c.col < 0 || c.col >= cols || c.row < 0 || c.row >= rows
      ensures n.Some? ==> n.value == nodes[c.col, c.row] && n.value.col == c.col && n.value.row == c.row
    {
      if c.col < 0 || c.col >= cols || c.row < 0 || c.row >= rows {
        return None;
      }
      n := Some(nodes[c.col, c.row]);
      assert At(View(nodes), c) == nodes[c.col, c.row];
    }

    /**
     * `renderSelections`: every node cleared, then the first selection
     * marked as start and each later one as waypoint `W<k>`. This is the
     * engine's prepared grid for the same selections.
     */
    method RenderSelections()
      requires Valid()
      modifies nodes
      ensures Valid()
      ensures View(nodes) == Prepared(old(View(nodes)), selections)
    {
      ghost var before := View(nodes);
      ResetIsCreate(before);
      ResetGrid(nodes);
      ApplySelections(nodes, selections);
    }

    /** `handleCellClick` on the cell at `c`: ignored off the board or on the last selection. */
    method HandleCellClick(c: Coord)
      requires Valid()
      modifies this, nodes
      ensures Valid()
      ensures nodes == old(nodes) && cols == old(cols) && rows == old(rows) && algorithm == old(algorithm)
      ensures selections == if InBounds(old(View(nodes)), c) then Clicked(old(selections), c) else old(selections)
      ensures View(nodes) == if selections == old(selections) then old(View(nodes)) else Prepared(old(View(nodes)), selections)
    {
      var node := GetNode(c);
      if node.None? {
        return;
      }
      if |selections| > 0 && selections[|selections| - 1] == c {
        return;
      }
      selections := selections + [c];
      RenderSelections();
    }

    /** `resetBoard`: no selections and every node back to its initial state, walls included. */
    method ResetBoard()
      requires Valid()
      modifies this, nodes
      ensures Valid()
      ensures nodes == old(nodes) && cols == old(cols) && rows == old(rows) && algorithm == old(algorithm)
      ensures selections == [] && View(nodes) == CreateGrid(cols, rows)
    {
      selections := [];
      ResetIsCreate(View(nodes));
      ResetGrid(nodes);
    }

    /** `undoLastSelection`: nothing without selections, else the last dropped and the rest re-marked. */
    method UndoLastSelection()
      requires Valid()
      modifies this, nodes
      ensures Valid()
      ensures nodes == old(nodes) && cols == old(cols) && rows == old(rows) && algorithm == old(algorithm)
      ensures selections == Undone(old(selections))
      ensures View(nodes) == if old(selections) == [] then old(View(nodes)) else Prepared(old(View(nodes)), selections)
    {
      if |selections| == 0 {
        return;
      }
      selections := selections[..|selections| - 1];
      RenderSelections();
    }

    /** `setAlgorithm`, without the label it writes: the stored name. */
    method SetAlgorithm(name: string)
      requires Valid()
      modifies this
      ensures Valid()
      ensures algorithm == name
      ensures nodes == old(nodes) && cols == old(cols) && rows == old(rows) && selections == old(selections)
    {
      algorithm := name;
    }

    /** `findPath`: the search the stored name selects, between two nodes of the board. */
    method FindPath(start: Coord, goal: Coord) returns (path: Option<seq<Coord>>)
      requires Valid() && InBounds(View(nodes), start)
      modifies nodes
      ensures Valid()
      ensures Outcome(path, View(nodes)) == Dispatch.FindPathOutcome(old(View(nodes)), start, goal, AlgorithmFor(algorithm))
    {
      path := Dispatch.FindPath(nodes, start, goal, AlgorithmFor(algorithm));
    }

    /** `computePaths` on the board in place. */
    method ComputePaths()
      requires Valid()
      modifies nodes
      ensures Valid()
      ensures View(nodes) == PlainComputed(old(View(nodes)), selections, AlgorithmFor(algorithm))
    {
      ResetIsCreate(View(nodes));
      ResetGrid(nodes);
      Tour.MarkTour(nodes, selections, AlgorithmFor(algorithm));
    }
  }
}
