/**
 * The grid: its shape, building it, resetting it, clearing the search
 * state, and assigning roles to cells. A grid held by a caller is a value
 * (`Cells`); a grid that the engine updates in place is an `array2<Node>`,
 * and `View` reads it back as a value.
 */
module GridModel {
  import opened Types
  import Labels

  // ---------------------------------------------------------------------
  // Shape
  // ---------------------------------------------------------------------

  /** `grid.length`. */
  function Cols(cells: Cells): nat
  {
    |cells|
  }

  /** `grid[0].length`, and 0 for a grid without columns. */
  function Rows(cells: Cells): nat
  {
    if |cells| == 0 then 0 else |cells[0]|
  }

  predicate Rectangular(cells: Cells)
  {
    forall i :: 0 <= i < |cells| ==> |cells[i]| == Rows(cells)
  }

  /** Every column has the same height and every node knows its own position. */
  predicate Layout(cells: Cells)
  {
    Rectangular(cells) &&
    forall i, j :: 0 <= i < |cells| && 0 <= j < |cells[i]| ==> cells[i][j].col == i && cells[i][j].row == j
  }

  predicate InBounds(cells: Cells, c: Coord)
  {
    0 <= c.col < Cols(cells) && 0 <= c.row < Rows(cells)
  }

  /** Every cell of a `cols` by `rows` grid. */
  function AllCells(cols: nat, rows: nat): (s: set<Coord>)
    ensures forall c {:trigger c in s} :: c in s <==> 0 <= c.col < cols && 0 <= c.row < rows
  {
    set i, j | 0 <= i < cols && 0 <= j < rows :: Coord(i, j)
  }

  function CellsOf(cells: Cells): (s: set<Coord>)
    ensures forall c {:trigger c in s} :: c in s <==> InBounds(cells, c)
  {
    AllCells(Cols(cells), Rows(cells))
  }

  predicate SameShape(a: Cells, b: Cells)
  {
    Cols(a) == Cols(b) && Rows(a) == Rows(b)
  }

  /** The node at `c`. */
  function At(cells: Cells, c: Coord): Node
    requires Rectangular(cells) && InBounds(cells, c)
  {
    cells[c.col][c.row]
  }

  /**
   * With coordinates shown, a laid-out grid never shows the same label on
   * two cells: a label names the one cell that carries it.
   */
  lemma ShownCoordsIdentify(cells: Cells, a: Coord, b: Coord)
    requires Layout(cells) && InBounds(cells, a) && InBounds(cells, b)
    requires Labels.NodeLabel(At(cells, a), true) == Labels.NodeLabel(At(cells, b), true)
    ensures a == b
  {
    Labels.CoordLabelInjective(a.col, a.row, b.col, b.row);
  }

  /** The grid with the node at `c` replaced by `n`. */
  function Put(cells: Cells, c: Coord, n: Node): (r: Cells)
    requires Rectangular(cells) && InBounds(cells, c)
    ensures Rectangular(r) && SameShape(r, cells)
    ensures forall d {:trigger At(r, d)} :: InBounds(r, d) ==> At(r, d) == if d == c then n else At(cells, d)
    ensures Layout(cells) && n.col == c.col && n.row == c.row ==> Layout(r)
  {
    cells[c.col := cells[c.col][c.row := n]]
  }

  /** Two grids of the same shape with the same node everywhere are the same grid. */
  lemma CellsEqual(a: Cells, b: Cells)
    requires Rectangular(a) && Rectangular(b) && SameShape(a, b)
    requires forall c :: InBounds(a, c) ==> At(a, c) == At(b, c)
    ensures a == b
  {
    forall i | 0 <= i < |a|
      ensures a[i] == b[i]
    {
      forall j | 0 <= j < |a[i]|
        ensures a[i][j] == b[i][j]
      {
        assert At(a, Coord(i, j)) == At(b, Coord(i, j));
      }
    }
  }

  /** A grid whose nodes keep the positions of another grid's nodes keeps its layout. */
  lemma LayoutPointwise(a: Cells, b: Cells)
    requires Layout(a) && Rectangular(b) && SameShape(a, b)
    requires forall c {:trigger At(b, c)} :: InBounds(a, c) ==> At(b, c).col == At(a, c).col && At(b, c).row == At(a, c).row
    ensures Layout(b)
  {
    forall i, j | 0 <= i < |b| && 0 <= j < |b[i]|
      ensures b[i][j].col == i && b[i][j].row == j
    {
      assert At(b, Coord(i, j)) == b[i][j];
    }
  }

  /** `f` applied to every node. */
  function MapCells(cells: Cells, f: Node -> Node): (r: Cells)
    requires Rectangular(cells)
    ensures Rectangular(r) && SameShape(r, cells)
    ensures forall c {:trigger At(r, c)} :: InBounds(r, c) ==> At(r, c) == f(At(cells, c))
  {
    seq(|cells|, i requires 0 <= i < |cells| => seq(|cells[i]|, j requires 0 <= j < |cells[i]| => f(cells[i][j])))
  }

  /** A node-wise update that keeps each node's position keeps the layout. */
  lemma MapCellsLayout(cells: Cells, f: Node -> Node)
    requires Layout(cells)
    requires forall n :: f(n).col == n.col && f(n).row == n.row
    ensures Layout(MapCells(cells, f))
  {
    var r: Cells := MapCells(cells, f);
    forall i: int, j: int | 0 <= i < |r| && 0 <= j < |r[i]|
      ensures r[i][j].col == i && r[i][j].row == j
    {
      assert r[i][j] == At(r, Coord(i, j)) == f(At(cells, Coord(i, j)));
    }
  }

  // ---------------------------------------------------------------------
  // The grid in place
  // ---------------------------------------------------------------------

  /** The contents of an in-place grid, column by column. */
  function View(g: array2<Node>): (cells: Cells)
    reads g
    ensures Rectangular(cells)
    ensures Cols(cells) == g.Length0
    ensures g.Length0 > 0 ==> Rows(cells) == g.Length1
    ensures forall c {:trigger At(cells, c)} {:trigger g[c.col, c.row]} :: InBounds(cells, c) ==> At(cells, c) == g[c.col, c.row]
  {
    seq(g.Length0, i requires 0 <= i < g.Length0 reads g =>
      seq(g.Length1, j requires 0 <= j < g.Length1 reads g => g[i, j]))
  }

  /** Replaces one node of an in-place grid. */
  method Store(g: array2<Node>, c: Coord, n: Node)
    requires InBounds(View(g), c)
    modifies g
    ensures View(g) == Put(old(View(g)), c, n)
  {
    ghost var before := View(g);
    g[c.col, c.row] := n;
    CellsEqual(View(g), Put(before, c, n));
  }

  /**
   * Applies `f` to every node of an in-place grid, column by column and
   * row by row, as the engine's nested `forEach` loops do.
   */
  method UpdateEach(g: array2<Node>, f: Node -> Node)
    modifies g
    ensures View(g) == MapCells(old(View(g)), f)
  {
    ghost var before := View(g);
    for i := 0 to g.Length0
      invariant forall a, b :: 0 <= a < g.Length0 && 0 <= b < g.Length1 ==>
        g[a, b] == if a < i then f(before[a][b]) else before[a][b]
    {
      for j := 0 to g.Length1
        invariant forall a, b :: 0 <= a < g.Length0 && 0 <= b < g.Length1 ==>
          g[a, b] == if a < i || (a == i && b < j) then f(before[a][b]) else before[a][b]
      {
        g[i, j] := f(g[i, j]);
      }
    }
    CellsEqual(View(g), MapCells(before, f));
  }

  // ---------------------------------------------------------------------
  // Building and resetting
  // ---------------------------------------------------------------------

  /** A node as first created: no parent, infinite costs, no role, empty label. */
  function CreateNode(col: int, row: int): Node
  {
    Node(col, row, None, Inf, Inf, Inf, Inf, false, false, false, false, false, false, false, "")
  }

  /** A node in the state `CreateNode` leaves it in, wherever it is. */
  predicate Pristine(n: Node)
  {
    n == CreateNode(n.col, n.row)
  }

  /** A `cols` by `rows` grid of freshly created nodes. */
  function CreateGrid(cols: nat, rows: nat): (r: Cells)
    ensures Layout(r) && Cols(r) == cols
    ensures cols > 0 ==> Rows(r) == rows
    ensures forall c :: InBounds(r, c) ==> At(r, c) == CreateNode(c.col, c.row)
  {
    seq(cols, i requires 0 <= i < cols => seq(rows, j requires 0 <= j < rows => CreateNode(i, j)))
  }

  /** The grid a new board starts with. */
  function DefaultGrid(): (r: Cells)
    ensures Cols(r) == COLS && Rows(r) == ROWS
  {
    CreateGrid(COLS, ROWS)
  }

  /** `cloneGrid`: a copy of every node with its parent link dropped. */
  function CloneCells(grid: Cells): (r: Cells)
    requires Rectangular(grid)
  {
    MapCells(grid, (n: Node) => n.(parent := None))
  }

  /** What `resetGrid` does to one node: every field but the position back to its initial value. */
  function ResetNode(n: Node): Node
  {
    n.(parent := None, distance := Inf, gCost := Inf, hCost := Inf, fCost := Inf,
       start := false, goal := false, waypoint := false, solid := false,
       open := false, checked := false, path := false, baseLabel := "")
  }

  /** `resetGrid` as a function of the grid it starts from. */
  function ResetCells(cells: Cells): (r: Cells)
    requires Rectangular(cells)
  {
    MapCells(cells, ResetNode)
  }

  /** Resetting a well-formed grid yields exactly a freshly created grid of the same size. */
  lemma ResetIsCreate(cells: Cells)
    requires Layout(cells)
    ensures ResetCells(cells) == CreateGrid(Cols(cells), Rows(cells))
    ensures ResetCells(CloneCells(cells)) == ResetCells(cells)
  {
    var r := ResetCells(cells);
    var created := CreateGrid(Cols(cells), Rows(cells));
    forall c | InBounds(r, c)
      ensures At(r, c) == At(created, c)
    {
      assert cells[c.col][c.row] == At(cells, c);
    }
    CellsEqual(r, created);
    CellsEqual(ResetCells(CloneCells(cells)), r);
  }

  /** Resets every node of an in-place grid. */
  method ResetGrid(g: array2<Node>)
    modifies g
    ensures View(g) == ResetCells(old(View(g)))
  {
    UpdateEach(g, ResetNode);
  }

  /** A node with a role, a wall or a path mark keeps its label when search state is cleared. */
  predicate KeepsLabel(n: Node)
  {
    n.start || n.goal || n.solid || n.path || n.waypoint
  }

  /** What `clearTransientSearchState` does to one node. */
  function ClearNode(n: Node): Node
  {
    n.(parent := None, distance := Inf, gCost := Inf, hCost := Inf, fCost := Inf,
       open := false, checked := false,
       baseLabel := if !n.start && !n.goal && !n.solid && !n.path && !n.waypoint then "" else n.baseLabel)
  }

  /** The role part of a node: what searches never touch. */
  predicate SameRole(m: Node, n: Node)
  {
    m.col == n.col && m.row == n.row &&
    m.start == n.start && m.goal == n.goal && m.waypoint == n.waypoint &&
    m.solid == n.solid && m.path == n.path
  }

  /** Two grids of the same shape whose nodes differ at most in their search state. */
  ghost predicate RolesKept(a: Cells, b: Cells)
  {
    Rectangular(a) && Rectangular(b) && SameShape(a, b) &&
    forall c :: InBounds(a, c) ==> SameRole(At(a, c), At(b, c)) && At(a, c).baseLabel == At(b, c).baseLabel
  }

  lemma RolesKeptTrans(a: Cells, b: Cells, c: Cells)
    requires RolesKept(a, b) && RolesKept(b, c)
    ensures RolesKept(a, c)
  {
    forall x | InBounds(a, x)
      ensures SameRole(At(a, x), At(c, x)) && At(a, x).baseLabel == At(c, x).baseLabel
    {
      assert InBounds(b, x);
    }
  }

  /** The search part of every node is initial (no parent, infinite costs, not open, not checked). */
  ghost predicate SearchCleared(cells: Cells)
    requires Rectangular(cells)
  {
    forall c :: InBounds(cells, c) ==>
      var n := At(cells, c);
      n.parent.None? && n.distance.Inf? && n.gCost.Inf? && n.hCost.Inf? && n.fCost.Inf? &&
      !n.open && !n.checked
  }

  /** `clearTransientSearchState` as a function of the grid it starts from. */
  function ClearedCells(cells: Cells): (r: Cells)
    requires Rectangular(cells)
  {
    MapCells(cells, ClearNode)
  }

  /**
   * Clearing leaves every node's search state initial and its roles alone,
   * and it empties exactly the labels of nodes without a role, wall or path mark.
   */
  lemma ClearedState(cells: Cells)
    requires Layout(cells)
    ensures var r := ClearedCells(cells);
      Layout(r) && SameShape(r, cells) && SearchCleared(r) &&
      forall c :: InBounds(cells, c) ==>
        SameRole(At(r, c), At(cells, c)) &&
        At(r, c).baseLabel == (if KeepsLabel(At(cells, c)) then At(cells, c).baseLabel else "")
  {
    MapCellsLayout(cells, ClearNode);
  }

  /** Clears the search state of an in-place grid. */
  method ClearTransientSearchState(g: array2<Node>)
    modifies g
    ensures View(g) == ClearedCells(old(View(g)))
  {
    UpdateEach(g, ClearNode);
  }

  // ---------------------------------------------------------------------
  // Roles
  // ---------------------------------------------------------------------

  /** `markStart`. */
  function StartMarked(n: Node): Node
  {
    n.(start := true, goal := false, waypoint := false, path := false, baseLabel := "")
  }

  /** `markGoal`: only the start flag is cleared; waypoint and path marks stay. */
  function GoalMarked(n: Node): Node
  {
    n.(goal := true, start := false, baseLabel := "G")
  }

  /** `markWaypoint(node, idx)`. */
  function WaypointMarked(n: Node, idx: nat): Node
  {
    n.(waypoint := true, start := false, goal := false, path := false, baseLabel := Labels.WaypointLabel(idx))
  }

  /** `markPath`. */
  function PathMarked(n: Node): Node
  {
    n.(path := true, start := false, goal := false, waypoint := false, baseLabel := "P")
  }

  /**
   * Each marker sets its role and the label that goes with it and clears the
   * other roles, except `markGoal`, which clears only the start role. None of
   * them touches a node's position, wall flag or search state.
   */
  lemma MarkersSetRoles(n: Node, idx: nat)
    ensures var m := StartMarked(n);
      m.start && !m.goal && !m.waypoint && !m.path && m.baseLabel == "" && SameSearch(m, n)
    ensures var m := GoalMarked(n);
      m.goal && !m.start && m.waypoint == n.waypoint && m.path == n.path && m.baseLabel == "G" && SameSearch(m, n)
    ensures var m := WaypointMarked(n, idx);
      m.waypoint && !m.start && !m.goal && !m.path && m.baseLabel == Labels.WaypointLabel(idx) && SameSearch(m, n)
    ensures var m := PathMarked(n);
      m.path && !m.start && !m.goal && !m.waypoint && m.baseLabel == "P" && SameSearch(m, n)
  {
  }

  /** Two nodes agree on position, wall flag and all search state. */
  predicate SameSearch(m: Node, n: Node)
  {
    m.col == n.col && m.row == n.row && m.solid == n.solid && m.parent == n.parent &&
    m.distance == n.distance && m.gCost == n.gCost && m.hCost == n.hCost && m.fCost == n.fCost &&
    m.open == n.open && m.checked == n.checked
  }

  method MarkStart(g: array2<Node>, c: Coord)
    requires InBounds(View(g), c)
    modifies g
    ensures View(g) == Put(old(View(g)), c, StartMarked(old(g[c.col, c.row])))
  {
    Store(g, c, StartMarked(g[c.col, c.row]));
  }

  method MarkGoal(g: array2<Node>, c: Coord)
    requires InBounds(View(g), c)
    modifies g
    ensures View(g) == Put(old(View(g)), c, GoalMarked(old(g[c.col, c.row])))
  {
    Store(g, c, GoalMarked(g[c.col, c.row]));
  }

  method MarkWaypoint(g: array2<Node>, c: Coord, idx: nat)
    requires InBounds(View(g), c)
    modifies g
    ensures View(g) == Put(old(View(g)), c, WaypointMarked(old(g[c.col, c.row]), idx))
  {
    Store(g, c, WaypointMarked(g[c.col, c.row], idx));
  }

  method MarkPath(g: array2<Node>, c: Coord)
    requires InBounds(View(g), c)
    modifies g
    ensures View(g) == Put(old(View(g)), c, PathMarked(old(g[c.col, c.row])))
  {
    Store(g, c, PathMarked(g[c.col, c.row]));
  }

  // ---------------------------------------------------------------------
  // Selections
  // ---------------------------------------------------------------------

  /** The role selection `idx` gives its cell: the first is the start, the others waypoints. */
  function SelectionMarked(n: Node, idx: nat): Node
  {
    if idx == 0 then StartMarked(n) else WaypointMarked(n, idx)
  }

  /** `applySelections` from selection `i` on; selections outside the grid are skipped. */
  function ApplyFrom(cells: Cells, sel: seq<Coord>, i: nat): (r: Cells)
    requires Rectangular(cells) && i <= |sel|
    ensures Rectangular(r) && SameShape(r, cells)
    ensures Layout(cells) ==> Layout(r)
    decreases |sel| - i
  {
    if i == |sel| then cells
    else if InBounds(cells, sel[i]) then
      ApplyFrom(Put(cells, sel[i], SelectionMarked(At(cells, sel[i]), i)), sel, i + 1)
    else
      ApplyFrom(cells, sel, i + 1)
  }

  /** The selections list contains `c` at or after position `i`. */
  predicate OccursFrom(sel: seq<Coord>, i: nat, c: Coord)
  {
    exists k :: i <= k < |sel| && sel[k] == c
  }

  /** The last position of `c` in the selections list. */
  function LastIndex(sel: seq<Coord>, c: Coord): (k: nat)
    requires c in sel
    ensures k < |sel| && sel[k] == c
    ensures forall j :: k < j < |sel| ==> sel[j] != c
  {
    if sel[|sel| - 1] == c then |sel| - 1 else LastIndex(sel[..|sel| - 1], c)
  }

  /**
   * Selection `i` and after only touch the cells they name, and a named cell
   * ends with the role of its last occurrence (later markers overwrite every
   * role flag and the label that earlier ones set).
   */
  lemma {:induction false} ApplyFromRoles(cells: Cells, sel: seq<Coord>, i: nat, c: Coord)
    requires Rectangular(cells) && i <= |sel| && InBounds(cells, c)
    ensures At(ApplyFrom(cells, sel, i), c) ==
      if OccursFrom(sel, i, c) then SelectionMarked(At(cells, c), LastIndex(sel, c)) else At(cells, c)
    decreases |sel| - i
  {
    if i < |sel| {
      var next := if InBounds(cells, sel[i]) then Put(cells, sel[i], SelectionMarked(At(cells, sel[i]), i)) else cells;
      assert At(next, c) == if sel[i] == c then SelectionMarked(At(cells, c), i) else At(cells, c);
      assert ApplyFrom(cells, sel, i) == ApplyFrom(next, sel, i + 1);
      ApplyFromRoles(next, sel, i + 1, c);
      OccursStep(sel, i, c);
      if OccursFrom(sel, i + 1, c) {
        MarkerOverwrites(At(cells, c), i, LastIndex(sel, c));
      }
    }
  }

  /** How occurrences from position `i` split into position `i` and the rest. */
  lemma {:induction false} OccursStep(sel: seq<Coord>, i: nat, c: Coord)
    requires i < |sel|
    ensures OccursFrom(sel, i, c) <==> sel[i] == c || OccursFrom(sel, i + 1, c)
    ensures OccursFrom(sel, i + 1, c) ==> c in sel && LastIndex(sel, c) > i
    ensures sel[i] == c && !OccursFrom(sel, i + 1, c) ==> LastIndex(sel, c) == i
  {
    if OccursFrom(sel, i + 1, c) {
      var k :| i + 1 <= k < |sel| && sel[k] == c;
      assert LastIndex(sel, c) >= k;
    }
    if OccursFrom(sel, i, c) && sel[i] != c {
      var k :| i <= k < |sel| && sel[k] == c;
      assert i + 1 <= k;
    }
  }

  /** A later selection's role replaces an earlier one's entirely. */
  lemma MarkerOverwrites(n: Node, i: nat, k: nat)
    requires i < k
    ensures SelectionMarked(SelectionMarked(n, i), k) == SelectionMarked(n, k)
  {
  }

  /** `prepareGridForSelections` as a function: a clone, reset, then given the selection roles. */
  function Prepared(grid: Cells, sel: seq<Coord>): (r: Cells)
    requires Rectangular(grid)
    ensures Rectangular(r) && SameShape(r, grid) && (Layout(grid) ==> Layout(r))
  {
    ResetLayout(grid);
    ApplyFrom(ResetCells(CloneCells(grid)), sel, 0)
  }

  lemma ResetLayout(grid: Cells)
    requires Rectangular(grid)
    ensures Layout(grid) ==> Layout(ResetCells(CloneCells(grid)))
  {
    if Layout(grid) {
      ResetIsCreate(grid);
    }
  }

  /**
   * The prepared grid is a fresh grid of the same size in which a selected
   * cell carries the role of its last selection (start for selection 0, the
   * waypoint `W<k>` for selection k) and every other cell is freshly created.
   */
  lemma {:induction false} PreparedRoles(grid: Cells, sel: seq<Coord>)
    requires Layout(grid)
    ensures var r := Prepared(grid, sel);
      Layout(r) && SameShape(r, grid) &&
      forall c :: InBounds(grid, c) ==>
        At(r, c) == if c in sel then SelectionMarked(CreateNode(c.col, c.row), LastIndex(sel, c))
                    else CreateNode(c.col, c.row)
  {
    ResetIsCreate(grid);
    var base := ResetCells(CloneCells(grid));
    forall c | InBounds(grid, c)
      ensures At(Prepared(grid, sel), c) == if c in sel then SelectionMarked(CreateNode(c.col, c.row), LastIndex(sel, c))
                                            else CreateNode(c.col, c.row)
    {
      ApplyFromRoles(base, sel, 0, c);
      if c in sel {
        var k :| 0 <= k < |sel| && sel[k] == c;
        assert OccursFrom(sel, 0, c);
      }
    }
  }

  /** Preparing for no selections gives a freshly created grid. */
  lemma PreparedEmpty(grid: Cells)
    requires Layout(grid)
    ensures Prepared(grid, []) == CreateGrid(Cols(grid), Rows(grid))
  {
    ResetIsCreate(grid);
  }

  /** `applySelections` on an in-place grid. */
  method ApplySelections(g: array2<Node>, sel: seq<Coord>)
    modifies g
    ensures View(g) == ApplyFrom(old(View(g)), sel, 0)
  {
    for idx := 0 to |sel|
      invariant ApplyFrom(View(g), sel, idx) == ApplyFrom(old(View(g)), sel, 0)
    {
      var c := sel[idx];
      if InBounds(View(g), c) {
        if idx == 0 {
          MarkStart(g, c);
        } else {
          MarkWaypoint(g, c, idx);
        }
      }
    }
  }

  /** `prepareGridForSelections`: a new grid; the one passed in is left as it was. */
  method PrepareGridForSelections(grid: array2<Node>, sel: seq<Coord>) returns (next: array2<Node>)
    ensures fresh(next)
    ensures View(next) == Prepared(View(grid), sel)
  {
    next := new Node[grid.Length0, grid.Length1]((i, j) reads grid =>
      if 0 <= i < grid.Length0 && 0 <= j < grid.Length1 then grid[i, j].(parent := None) else CreateNode(i, j));
    CellsEqual(View(next), CloneCells(View(grid)));
    ResetGrid(next);
    ApplySelections(next, sel);
  }
}
