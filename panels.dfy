/**
 * The React front end's panels: each canvas keeps its own board size,
 * grid, selections and algorithm, and every handler maps the list of panels
 * to a new list in which only the panel with the given id changes.
 *
 * Selections never repeat: a click on a cell already selected is ignored.
 * Run times are measured by the browser clock; here the elapsed time is
 * a parameter of the run.
 */
module Panels {
  import opened Types
  import opened GridModel
  import Tour

  datatype PanelState = PanelState(
    id: int,
    cols: nat,
    rows: nat,
    grid: Cells,
    selections: seq<Coord>,
    algorithm: AlgorithmId,
    showCoords: bool,
    lastRunMs: Option<real>)

  /** No cell is selected twice. */
  predicate Distinct(sel: seq<Coord>)
  {
    forall i, j :: 0 <= i < j < |sel| ==> sel[i] != sel[j]
  }

  /** The panel's grid has the panel's size and positions, and its selections do not repeat. */
  predicate PanelOk(p: PanelState)
  {
    p.cols > 0 && p.rows > 0 &&
    Layout(p.grid) && Cols(p.grid) == p.cols && Rows(p.grid) == p.rows &&
    Distinct(p.selections)
  }

  /** The grid shows the selections and nothing else: it is their prepared grid. */
  predicate Shows(p: PanelState)
    requires PanelOk(p)
  {
    p.grid == Prepared(p.grid, p.selections)
  }

  /** `createPanel`: a fresh 16 by 12 board, no selections, breadth-first search, never run. */
  function CreatePanel(id: int): (p: PanelState)
    ensures PanelOk(p) && Shows(p)
    ensures p.id == id && p.cols == COLS && p.rows == ROWS && p.selections == []
    ensures p.algorithm == Bfs && !p.showCoords && p.lastRunMs == None
  {
    var p := PanelState(id, COLS, ROWS, CreateGrid(COLS, ROWS), [], Bfs, false, None);
    PreparedEmpty(p.grid);
    p
  }

  // ---------------------------------------------------------------------
  // The prepared grid depends on the size only
  // ---------------------------------------------------------------------

  /** Preparing two grids of the same size for the same selections gives the same grid. */
  lemma PreparedShapeOnly(a: Cells, b: Cells, sel: seq<Coord>)
    requires Layout(a) && Layout(b) && SameShape(a, b)
    ensures Prepared(a, sel) == Prepared(b, sel)
  {
    ResetIsCreate(a);
    ResetIsCreate(b);
  }

  /** Preparing a prepared grid again for the same selections changes nothing. */
  lemma PreparedIdempotent(grid: Cells, sel: seq<Coord>)
    requires Layout(grid)
    ensures Prepared(Prepared(grid, sel), sel) == Prepared(grid, sel)
  {
    PreparedShapeOnly(Prepared(grid, sel), grid, sel);
  }

  /** A run depends on the size of the grid it is given, not on its contents. */
  lemma ComputedShapeOnly(a: Cells, b: Cells, sel: seq<Coord>, alg: AlgorithmId)
    requires Layout(a) && Layout(b) && SameShape(a, b)
    ensures Tour.ComputedPaths(a, sel, alg) == Tour.ComputedPaths(b, sel, alg)
  {
    PreparedShapeOnly(a, b, sel);
  }

  // ---------------------------------------------------------------------
  // One panel
  // ---------------------------------------------------------------------

  /** Same id, size and coordinate display: what only a size change or the coordinate toggle alter. */
  predicate SameSetup(p: PanelState, q: PanelState)
  {
    q.id == p.id && q.cols == p.cols && q.rows == p.rows && q.showCoords == p.showCoords
  }

  /**
   * The panel after a click on `c`: unchanged when `c` is already selected,
   * otherwise `c` appended to the selections and the grid showing them.
   */
  function Clicked(p: PanelState, c: Coord): (q: PanelState)
    requires PanelOk(p)
    ensures PanelOk(q) && SameSetup(p, q) && q.algorithm == p.algorithm && q.lastRunMs == p.lastRunMs
    ensures c in p.selections <==> q == p
    ensures c !in p.selections ==> q.selections == p.selections + [c] && Shows(q)
  {
    if c in p.selections then p
    else
      var sel := p.selections + [c];
      PreparedIdempotent(p.grid, sel);
      p.(selections := sel, grid := Prepared(p.grid, sel))
  }

  /** The panel after undo: unchanged without selections, otherwise the last one dropped and the grid showing the rest. */
  function Undone(p: PanelState): (q: PanelState)
    requires PanelOk(p)
    ensures PanelOk(q) && SameSetup(p, q) && q.algorithm == p.algorithm && q.lastRunMs == p.lastRunMs
    ensures p.selections == [] ==> q == p
    ensures p.selections != [] ==> q.selections + [p.selections[|p.selections| - 1]] == p.selections && Shows(q)
  {
    if |p.selections| == 0 then p
    else
      var sel := p.selections[..|p.selections| - 1];
      PreparedIdempotent(p.grid, sel);
      p.(selections := sel, grid := Prepared(p.grid, sel))
  }

  /** The panel after a reset: no selections, a freshly created grid of its size, no run time. */
  function Restarted(p: PanelState): (q: PanelState)
    requires PanelOk(p)
    ensures PanelOk(q) && SameSetup(p, q) && q.algorithm == p.algorithm && Shows(q)
    ensures q.selections == [] && q.grid == CreateGrid(p.cols, p.rows) && q.lastRunMs == None
  {
    var q := p.(selections := [], grid := CreateGrid(p.cols, p.rows), lastRunMs := None);
    PreparedEmpty(q.grid);
    q
  }

  /** The panel after a run that took `elapsed` milliseconds: the grid `computePaths` returns. */
  function Ran(p: PanelState, elapsed: real): (q: PanelState)
    requires PanelOk(p)
    ensures PanelOk(q) && SameSetup(p, q) && q.algorithm == p.algorithm && q.selections == p.selections
    ensures q.grid == Tour.ComputedPaths(p.grid, p.selections, p.algorithm) && q.lastRunMs == Some(elapsed)
  {
    p.(grid := Tour.ComputedPaths(p.grid, p.selections, p.algorithm), lastRunMs := Some(elapsed))
  }

  /** The panel with the coordinate display switched. */
  function CoordsToggled(p: PanelState): (q: PanelState)
    requires PanelOk(p)
    ensures PanelOk(q) && q.showCoords != p.showCoords && q.(showCoords := p.showCoords) == p
  {
    p.(showCoords := !p.showCoords)
  }

  /** The panel with another algorithm: same selections, the grid showing them again. */
  function AlgorithmChanged(p: PanelState, algo: AlgorithmId): (q: PanelState)
    requires PanelOk(p)
    ensures PanelOk(q) && SameSetup(p, q) && q.selections == p.selections && q.lastRunMs == p.lastRunMs
    ensures q.algorithm == algo && Shows(q)
  {
    PreparedIdempotent(p.grid, p.selections);
    p.(algorithm := algo, grid := Prepared(p.grid, p.selections))
  }

  /** The panel at a new size: no selections, a fresh grid of that size, no run time. */
  function Resized(p: PanelState, cols: nat, rows: nat): (q: PanelState)
    requires PanelOk(p) && cols > 0 && rows > 0
    ensures PanelOk(q) && Shows(q) && q.id == p.id && q.algorithm == p.algorithm && q.showCoords == p.showCoords
    ensures q.cols == cols && q.rows == rows && q.selections == [] && q.lastRunMs == None
    ensures q.grid == CreateGrid(cols, rows)
  {
    var q := p.(cols := cols, rows := rows, selections := [], grid := CreateGrid(cols, rows), lastRunMs := None);
    PreparedEmpty(q.grid);
    q
  }

  /**
   * When the grid shows the selections, a click on a new cell followed by
   * undo gives back the panel it started from.
   */
  lemma UndoAfterClick(p: PanelState, c: Coord)
    requires PanelOk(p) && Shows(p) && c !in p.selections
    ensures Undone(Clicked(p, c)) == p
  {
    var q := Clicked(p, c);
    assert q.selections[..|q.selections| - 1] == p.selections;
    PreparedShapeOnly(q.grid, p.grid, p.selections);
  }

  /**
   * After a click on a new cell of the board, the grid shows the clicked
   * cell as the start when it is the first selection and as the waypoint
   * `W<k>` when it is selection k; every cell not selected is as created.
   */
  lemma ClickedRoles(p: PanelState, c: Coord)
    requires PanelOk(p) && c !in p.selections && InBounds(p.grid, c)
    ensures var q := Clicked(p, c); var k := |p.selections|;
      At(q.grid, c) == (if k == 0 then StartMarked(CreateNode(c.col, c.row)) else WaypointMarked(CreateNode(c.col, c.row), k)) &&
      forall d :: InBounds(p.grid, d) && d !in q.selections ==> At(q.grid, d) == CreateNode(d.col, d.row)
  {
    var sel := p.selections + [c];
    PreparedRoles(p.grid, sel);
    assert LastIndex(sel, c) == |p.selections|;
  }

  /** After undo the dropped cell is as created again: no role, no label. */
  lemma UndoneClears(p: PanelState)
    requires PanelOk(p) && p.selections != [] && InBounds(p.grid, p.selections[|p.selections| - 1])
    ensures var c := p.selections[|p.selections| - 1];
      At(Undone(p).grid, c) == CreateNode(c.col, c.row)
  {
    var c := p.selections[|p.selections| - 1];
    var sel := p.selections[..|p.selections| - 1];
    PreparedRoles(p.grid, sel);
    assert c !in sel;
  }

  /** Choosing an algorithm and running gives the grid a run with that algorithm computes. */
  lemma RunAfterAlgorithmChange(p: PanelState, algo: AlgorithmId, elapsed: real)
    requires PanelOk(p)
    ensures Ran(AlgorithmChanged(p, algo), elapsed).grid == Tour.ComputedPaths(p.grid, p.selections, algo)
  {
    ComputedShapeOnly(Prepared(p.grid, p.selections), p.grid, p.selections, algo);
  }

  /** A run on a panel with two selections or more leaves the last one as the goal labelled `G`. */
  lemma RanGoal(p: PanelState, elapsed: real)
    requires PanelOk(p) && |p.selections| >= 2
    requires InBounds(p.grid, p.selections[0]) && InBounds(p.grid, p.selections[|p.selections| - 1])
    ensures Tour.GoalAt(Ran(p, elapsed).grid, p.selections[|p.selections| - 1])
  {
    Tour.ComputedPathsGoal(p.grid, p.selections, p.algorithm);
  }

  // ---------------------------------------------------------------------
  // The list of panels
  // ---------------------------------------------------------------------

  /** What a handler does to the panel it is aimed at. */
  datatype Action =
    | CellClick(coord: Coord)
    | Undo
    | Reset
    | Run(elapsed: real)
    | ToggleCoords
    | AlgorithmChange(algo: AlgorithmId)
    | GridSizeChange(newCols: nat, newRows: nat)

  /** The sizes `clampSize` lets through are positive. */
  predicate ActionOk(a: Action)
  {
    a.GridSizeChange? ==> a.newCols > 0 && a.newRows > 0
  }

  /** The handler's effect on the panel it is aimed at. */
  function Apply(p: PanelState, a: Action): (q: PanelState)
    requires PanelOk(p) && ActionOk(a)
    ensures PanelOk(q) && q.id == p.id
  {
    match a
    case CellClick(c) => Clicked(p, c)
    case Undo => Undone(p)
    case Reset => Restarted(p)
    case Run(elapsed) => Ran(p, elapsed)
    case ToggleCoords => CoordsToggled(p)
    case AlgorithmChange(algo) => AlgorithmChanged(p, algo)
    case GridSizeChange(cols, rows) => Resized(p, cols, rows)
  }

  /** Every panel of the list is well formed. */
  predicate AllOk(panels: seq<PanelState>)
  {
    forall i :: 0 <= i < |panels| ==> PanelOk(panels[i])
  }

  /** A handler on the panel list: the panel with id `id` updated, every other panel as it was. */
  function Update(panels: seq<PanelState>, id: int, a: Action): (r: seq<PanelState>)
    requires AllOk(panels) && ActionOk(a)
    ensures |r| == |panels| && AllOk(r)
    ensures forall i :: 0 <= i < |r| ==> r[i].id == panels[i].id
    ensures forall i :: 0 <= i < |r| && panels[i].id != id ==> r[i] == panels[i]
    ensures forall i :: 0 <= i < |r| && panels[i].id == id ==> r[i] == Apply(panels[i], a)
  {
    seq(|panels|, i requires 0 <= i < |panels| => if panels[i].id == id then Apply(panels[i], a) else panels[i])
  }

  /** The whole front end: the panels and the id the next canvas gets. */
  datatype Board = Board(panels: seq<PanelState>, nextId: int)

  /** Panels are well formed, listed by increasing id, and every id is below the next one. */
  predicate BoardOk(b: Board)
  {
    AllOk(b.panels) &&
    (forall i, j :: 0 <= i < j < |b.panels| ==> b.panels[i].id < b.panels[j].id) &&
    (forall i :: 0 <= i < |b.panels| ==> b.panels[i].id < b.nextId)
  }

  /** The front end on start: one panel with id 1. */
  function InitialBoard(): (b: Board)
    ensures BoardOk(b) && |b.panels| == 1 && b.panels[0] == CreatePanel(1)
  {
    Board([CreatePanel(1)], 2)
  }

  /** `handleAddCanvas`: a fresh panel with the next id at the end of the list. */
  function AddCanvas(b: Board): (r: Board)
    requires BoardOk(b)
    ensures BoardOk(r) && |r.panels| == |b.panels| + 1 && r.panels[..|b.panels|] == b.panels
    ensures r.panels[|b.panels|] == CreatePanel(b.nextId) && r.nextId > b.nextId
  {
    Board(b.panels + [CreatePanel(b.nextId)], b.nextId + 1)
  }

  /** A handler on the whole front end. */
  function Handle(b: Board, id: int, a: Action): (r: Board)
    requires BoardOk(b) && ActionOk(a)
    ensures BoardOk(r) && r.nextId == b.nextId && |r.panels| == |b.panels|
  {
    Board(Update(b.panels, id, a), b.nextId)
  }

  /** Since ids do not repeat, a handler changes at most one panel. */
  lemma HandleChangesOne(b: Board, id: int, a: Action, i: int, j: int)
    requires BoardOk(b) && ActionOk(a)
    requires 0 <= i < j < |b.panels|
    ensures Handle(b, id, a).panels[i] == b.panels[i] || Handle(b, id, a).panels[j] == b.panels[j]
  {
    assert b.panels[i].id < b.panels[j].id;
  }
}
