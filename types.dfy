/**
 * The value types shared by the pathfinding engine: coordinates, costs
 * (a finite natural number or the engine's `Infinity`), grid nodes and
 * the algorithm identifiers, plus the default grid size.
 */
module Types {

  datatype Option<T> = None | Some(value: T)

  /** A cell position: `col` indexes the outer array of the grid, `row` the inner one. */
  datatype Coord = Coord(col: int, row: int)

  /** A path cost. `Inf` stands for the engine's `Infinity`. */
  datatype Cost = Fin(n: nat) | Inf

  /** `a < b` on costs, as JavaScript's `<` on numbers with `Infinity`. */
  predicate CostLess(a: Cost, b: Cost)
  {
    a.Fin? && (b.Inf? || a.n < b.n)
  }

  /** `c + k` on costs: `Infinity + k` is `Infinity`. */
  function Plus(c: Cost, k: nat): (r: Cost)
    ensures r.Fin? <==> c.Fin?
    ensures r.Fin? ==> r.n == c.n + k
  {
    match c
    case Fin(n) => Fin(n + k)
    case Inf => Inf
  }

  /**
   * Adding the same step to two costs keeps their order both ways, and
   * never makes a cost cheaper: the comparison `tentative < distance` of a
   * relaxation sees the same order as the costs it is built from.
   */
  lemma PlusMonotone(a: Cost, b: Cost, k: nat)
    ensures CostLess(Plus(a, k), Plus(b, k)) <==> CostLess(a, b)
    ensures !CostLess(Plus(a, k), a)
    ensures Plus(Inf, k) == Inf
  {
  }

  /**
   * One grid cell. A node refers to its parent by coordinate, which is how
   * the engine's object references are represented here.
   */
  datatype Node = Node(
    col: int,
    row: int,
    parent: Option<Coord>,
    distance: Cost,
    gCost: Cost,
    hCost: Cost,
    fCost: Cost,
    start: bool,
    goal: bool,
    waypoint: bool,
    solid: bool,
    open: bool,
    checked: bool,
    path: bool,
    baseLabel: string)

  /** A grid as a value, indexed `[col][row]`. */
  type Cells = seq<seq<Node>>

  datatype AlgorithmId = Bfs | Dfs | Dijkstra | AStar

  /** The default grid width and height. */
  const COLS: nat := 16
  const ROWS: nat := 12

  /** What a search leaves behind: the path it returned (`None` for `null`) and the grid. */
  datatype Outcome = Outcome(path: Option<seq<Coord>>, cells: Cells)
}
