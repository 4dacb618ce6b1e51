/**
 * Dijkstra's algorithm as the engine runs it. The queue may hold a cell
 * more than once; before each pop it is sorted by `distance`, and a popped
 * cell that is already visited is skipped. A cell popped for the first time
 * is visited and marked checked; at the goal the path is read back,
 * otherwise each walkable, unvisited neighbour whose distance exceeds the
 * popped cell's by more than one gets the shorter distance, the popped cell
 * as parent and the open mark, and is pushed.
 *
 * The cells the run has given a distance (`known`, ghost) have their parent
 * links forming a search tree ranked by distance, and each of those links
 * leads to a visited cell, whose distance no longer changes.
 */
module DijkstraSearch {
  import opened Types
  import opened GridModel
  import opened Adjacency
  import opened Walks
  import opened PathReconstruction
  import opened StableSort
  import opened FrontierSearch

  /** The distance of every cell in `known`, which are on the grid with a finite distance. */
  ghost function DistRank(cells: Cells, known: set<Coord>): (r: map<Coord, nat>)
    requires Rectangular(cells)
    requires forall c {:trigger c in known} :: c in known ==> InBounds(cells, c) && At(cells, c).distance.Fin?
    ensures r.Keys == known
    ensures forall c {:trigger r[c]} :: c in r ==> r[c] == At(cells, c).distance.n
  {
    map c | c in known :: At(cells, c).distance.n
  }

  /**
   * What holds before each pop: the start and every queued cell are known,
   * every known cell is on the grid with a finite distance, the start's is
   * 0, the parent of every other known cell is a visited cell, and the
   * parent links of the known cells form a search tree ranked by distance.
   */
  ghost predicate Settling(cells: Cells, queue: seq<Coord>, visited: set<Coord>, known: set<Coord>, start: Coord)
  {
    Layout(cells) && start in known && visited <= known &&
    (forall c {:trigger c in known} :: c in known ==> InBounds(cells, c) && At(cells, c).distance.Fin?) &&
    (forall x {:trigger x in queue} :: x in queue ==> x in known) &&
    At(cells, start).distance == Fin(0) &&
    (forall c {:trigger ParentOf(cells, c)} :: c in known && c != start ==>
      ParentOf(cells, c).Some? && ParentOf(cells, c).value in visited) &&
    ParentTree(cells, start, DistRank(cells, known))
  }

  /** `current.distance + 1`. */
  function Tentative(cells: Cells, current: Coord): Cost
    requires Rectangular(cells) && InBounds(cells, current)
  {
    Plus(At(cells, current).distance, 1)
  }

  /**
   * The scan of `current`'s neighbours: a wall or a visited cell is
   * skipped; a cell whose distance `Tentative` would lower gets that
   * distance, `current` as parent and the open mark, and is pushed.
   */
  function Relax(current: Coord, nbrs: seq<Coord>, s: Sweep): (r: Sweep)
    requires Rectangular(s.cells) && InBounds(s.cells, current)
    decreases |nbrs|
  {
    if |nbrs| == 0 then s
    else
      var nb := nbrs[0];
      if !Open(s.cells, nb) || nb in s.visited then Relax(current, nbrs[1..], s)
      else if CostLess(Tentative(s.cells, current), At(s.cells, nb).distance) then
        var n := At(s.cells, nb).(distance := Tentative(s.cells, current), parent := Some(current), open := true);
        Relax(current, nbrs[1..], Sweep(Put(s.cells, nb, n), s.frontier + [nb], s.visited))
      else Relax(current, nbrs[1..], s)
  }

  /** The neighbours a scan improves: listed, walkable, unvisited, and farther than `Tentative`. */
  function Improved(cells: Cells, current: Coord, nbrs: seq<Coord>, visited: set<Coord>): (t: set<Coord>)
    requires Rectangular(cells) && InBounds(cells, current)
    ensures forall x {:trigger x in t} :: x in t <==>
      x in nbrs && Open(cells, x) && x !in visited && CostLess(Tentative(cells, current), At(cells, x).distance)
  {
    set x | x in nbrs && Open(cells, x) && x !in visited && CostLess(Tentative(cells, current), At(cells, x).distance)
  }

  /** The improved neighbours of a list: its head when that is improved, then those of its tail. */
  lemma ImprovedStep(cells: Cells, current: Coord, nbrs: seq<Coord>, visited: set<Coord>)
    requires Rectangular(cells) && InBounds(cells, current) && |nbrs| > 0
    ensures nbrs[0] !in Improved(cells, current, nbrs, visited) ==>
      Improved(cells, current, nbrs, visited) == Improved(cells, current, nbrs[1..], visited)
    ensures nbrs[0] in Improved(cells, current, nbrs, visited) ==>
      Improved(cells, current, nbrs, visited) == Improved(cells, current, nbrs[1..], visited) + {nbrs[0]}
  {
    assert forall x :: x in nbrs <==> x == nbrs[0] || x in nbrs[1..];
  }

  /** A relaxed cell has the lower distance afterwards, so it is no longer improved. */
  lemma ImprovedAfter(cells: Cells, current: Coord, nbrs: seq<Coord>, visited: set<Coord>, nb: Coord)
    requires Rectangular(cells) && InBounds(cells, current) && Open(cells, nb)
    requires CostLess(Tentative(cells, current), At(cells, nb).distance)
    ensures var n := At(cells, nb).(distance := Tentative(cells, current), parent := Some(current), open := true);
      nb != current &&
      Improved(Put(cells, nb, n), current, nbrs, visited) == Improved(cells, current, nbrs, visited) - {nb}
  {
    var n := At(cells, nb).(distance := Tentative(cells, current), parent := Some(current), open := true);
    var c := Put(cells, nb, n);
    PutKeepsOpen(cells, nb, n);
    assert nb != current;
    assert Tentative(c, current) == Tentative(cells, current);
  }

  /**
   * What a scan does: it improves exactly the cells `Improved` names, giving
   * each the tentative distance, `current` as parent and the open mark,
   * pushes exactly them, and changes nothing else.
   */
  lemma RelaxCells(current: Coord, nbrs: seq<Coord>, s: Sweep)
    requires Rectangular(s.cells) && InBounds(s.cells, current)
    ensures var r := Relax(current, nbrs, s);
      var t := Improved(s.cells, current, nbrs, s.visited);
      Rectangular(r.cells) && SameShape(r.cells, s.cells) &&
      (Layout(s.cells) ==> Layout(r.cells)) && r.visited == s.visited &&
      |s.frontier| <= |r.frontier| && r.frontier[..|s.frontier|] == s.frontier &&
      (forall x {:trigger x in r.frontier} :: x in r.frontier <==> x in s.frontier || x in t) &&
      forall c {:trigger At(r.cells, c)} :: InBounds(s.cells, c) ==>
        At(r.cells, c) ==
          if c in t then At(s.cells, c).(distance := Tentative(s.cells, current), parent := Some(current), open := true)
          else At(s.cells, c)
  {
    RelaxGrid(current, nbrs, s);
    RelaxLists(current, nbrs, s);
    var r := Relax(current, nbrs, s);
    if Layout(s.cells) {
      LayoutPointwise(s.cells, r.cells);
    }
  }

  /** The grid half of `RelaxCells`. */
  lemma {:induction false} RelaxGrid(current: Coord, nbrs: seq<Coord>, s: Sweep)
    requires Rectangular(s.cells) && InBounds(s.cells, current)
    ensures var r := Relax(current, nbrs, s);
      var t := Improved(s.cells, current, nbrs, s.visited);
      Rectangular(r.cells) && SameShape(r.cells, s.cells) &&
      forall c {:trigger At(r.cells, c)} :: InBounds(s.cells, c) ==>
        At(r.cells, c) ==
          if c in t then At(s.cells, c).(distance := Tentative(s.cells, current), parent := Some(current), open := true)
          else At(s.cells, c)
    decreases |nbrs|
  {
    if |nbrs| > 0 {
      var nb := nbrs[0];
      ImprovedStep(s.cells, current, nbrs, s.visited);
      if !Open(s.cells, nb) || nb in s.visited || !CostLess(Tentative(s.cells, current), At(s.cells, nb).distance) {
        RelaxGrid(current, nbrs[1..], s);
      } else {
        var n := At(s.cells, nb).(distance := Tentative(s.cells, current), parent := Some(current), open := true);
        var s' := Sweep(Put(s.cells, nb, n), s.frontier + [nb], s.visited);
        ImprovedAfter(s.cells, current, nbrs[1..], s.visited, nb);
        RelaxGrid(current, nbrs[1..], s');
        assert Tentative(s'.cells, current) == Tentative(s.cells, current);
      }
    }
  }

  /** The list half of `RelaxCells`. */
  lemma {:induction false} RelaxLists(current: Coord, nbrs: seq<Coord>, s: Sweep)
    requires Rectangular(s.cells) && InBounds(s.cells, current)
    ensures var r := Relax(current, nbrs, s);
      var t := Improved(s.cells, current, nbrs, s.visited);
      r.visited == s.visited &&
      |s.frontier| <= |r.frontier| && r.frontier[..|s.frontier|] == s.frontier &&
      (forall x {:trigger x in r.frontier} :: x in r.frontier <==> x in s.frontier || x in t)
    decreases |nbrs|
  {
    if |nbrs| > 0 {
      var nb := nbrs[0];
      ImprovedStep(s.cells, current, nbrs, s.visited);
      if !Open(s.cells, nb) || nb in s.visited || !CostLess(Tentative(s.cells, current), At(s.cells, nb).distance) {
        RelaxLists(current, nbrs[1..], s);
      } else {
        var n := At(s.cells, nb).(distance := Tentative(s.cells, current), parent := Some(current), open := true);
        var s' := Sweep(Put(s.cells, nb, n), s.frontier + [nb], s.visited);
        ImprovedAfter(s.cells, current, nbrs[1..], s.visited, nb);
        RelaxLists(current, nbrs[1..], s');
        var r := Relax(current, nbrs[1..], s');
        assert r.frontier[..|s.frontier|] == (r.frontier[..|s'.frontier|])[..|s.frontier|];
        assert r.frontier[|s.frontier|] == nb;
      }
    }
  }

  /**
   * The turn after a first-time pop of `sorted[0]` that is not the goal:
   * the cell is visited and marked checked, and its neighbours are relaxed.
   */
  function RelaxTurn(cells: Cells, sorted: seq<Coord>, visited: set<Coord>): Sweep
    requires Rectangular(cells) && |sorted| > 0 && InBounds(cells, sorted[0])
  {
    var current := sorted[0];
    var marked := Checked(cells, current);
    Relax(current, Neighbors(marked, current), Sweep(marked, sorted[1..], visited + {current}))
  }

  /** `Settling` depends only on the layout, the walls, the distances and the parent links. */
  lemma SettlingFrame(a: Cells, b: Cells, queue: seq<Coord>, visited: set<Coord>, known: set<Coord>, start: Coord)
    requires Settling(a, queue, visited, known, start)
    requires Layout(b) && SameShape(a, b)
    requires forall c {:trigger At(b, c)} :: InBounds(a, c) ==>
      At(b, c).parent == At(a, c).parent && At(b, c).distance == At(a, c).distance && At(b, c).solid == At(a, c).solid
    ensures Settling(b, queue, visited, known, start) && DistRank(b, known) == DistRank(a, known)
  {
    forall c | c in known
      ensures InBounds(b, c) && At(b, c).distance == At(a, c).distance
    {
      assert InBounds(a, c);
    }
    assert DistRank(b, known) == DistRank(a, known);
    ParentTreeFrame(a, b, start, DistRank(a, known));
    forall c | c in known && c != start
      ensures ParentOf(b, c) == ParentOf(a, c)
    {
      assert InBounds(a, c);
    }
  }

  /** Marking the popped cell checked and visited keeps `Settling`. */
  lemma CheckedSettles(cells: Cells, sorted: seq<Coord>, visited: set<Coord>, known: set<Coord>, start: Coord)
    requires Settling(cells, sorted, visited, known, start) && |sorted| > 0
    ensures InBounds(cells, sorted[0]) &&
      Settling(Checked(cells, sorted[0]), sorted[1..], visited + {sorted[0]}, known, start) &&
      DistRank(Checked(cells, sorted[0]), known) == DistRank(cells, known)
  {
    var c := sorted[0];
    assert c in sorted;
    var r := Checked(cells, c);
    assert At(cells, c).col == c.col && At(cells, c).row == c.row;
    SettlingFrame(cells, r, sorted, visited, known, start);
    forall x | x in sorted[1..]
      ensures x in known
    {
      assert x in sorted;
    }
  }

  /**
   * Relaxing the neighbours of a visited, known cell keeps `Settling`, with
   * the improved cells now known.
   */
  lemma RelaxSettles(cells: Cells, current: Coord, rest: seq<Coord>, visited: set<Coord>, known: set<Coord>, start: Coord)
    requires Settling(cells, rest, visited, known, start) && current in visited
    ensures var s := Relax(current, Neighbors(cells, current), Sweep(cells, rest, visited));
      Settling(s.cells, s.frontier, s.visited, known + Members(s.frontier), start) &&
      CellsOf(s.cells) == CellsOf(cells) && s.visited == visited
  {
    var nbrs := Neighbors(cells, current);
    var s0 := Sweep(cells, rest, visited);
    var s := Relax(current, nbrs, s0);
    var t := Improved(cells, current, nbrs, visited);
    RelaxCells(current, nbrs, s0);
    assert known + Members(s.frontier) == known + t;
    assert CellsOf(s.cells) == CellsOf(cells);
    RelaxedFields(cells, s.cells, current, t);
    SettlingGrows(cells, s.cells, current, t, rest, s.frontier, visited, known, start);
  }

  /** The node-wise effect of a scan, field by field. */
  lemma RelaxedFields(cells: Cells, next: Cells, current: Coord, t: set<Coord>)
    requires Rectangular(cells) && InBounds(cells, current)
    requires Rectangular(next) && SameShape(next, cells)
    requires forall c {:trigger At(next, c)} :: InBounds(cells, c) ==>
      At(next, c) == if c in t then At(cells, c).(distance := Tentative(cells, current), parent := Some(current), open := true)
                     else At(cells, c)
    ensures forall c {:trigger ParentOf(next, c)} :: InBounds(cells, c) ==>
      ParentOf(next, c) == if c in t then Some(current) else ParentOf(cells, c)
    ensures forall c {:trigger Open(next, c)} :: Open(next, c) == Open(cells, c)
  {
    forall c
      ensures Open(next, c) == Open(cells, c)
    {
      if InBounds(cells, c) {
        assert At(next, c).solid == At(cells, c).solid;
      }
    }
  }

  /**
   * `Settling` after the improved cells `t` of a visited cell `current` get
   * its distance plus one, `current` as parent and the open mark, and join
   * the queue.
   */
  lemma SettlingGrows(cells: Cells, next: Cells, current: Coord, t: set<Coord>, queue: seq<Coord>, queue': seq<Coord>,
                      visited: set<Coord>, known: set<Coord>, start: Coord)
    requires Settling(cells, queue, visited, known, start) && current in visited
    requires forall x {:trigger x in t} :: x in t ==>
      Open(cells, x) && Adjacent(current, x) && x !in visited && CostLess(Tentative(cells, current), At(cells, x).distance)
    requires Layout(next) && SameShape(next, cells)
    requires forall c {:trigger At(next, c)} :: InBounds(cells, c) ==>
      At(next, c).distance == if c in t then Tentative(cells, current) else At(cells, c).distance
    requires forall c {:trigger ParentOf(next, c)} :: InBounds(cells, c) ==>
      ParentOf(next, c) == if c in t then Some(current) else ParentOf(cells, c)
    requires forall c {:trigger Open(next, c)} :: Open(next, c) == Open(cells, c)
    requires forall x {:trigger x in queue'} :: x in queue' <==> x in queue || x in t
    ensures Settling(next, queue', visited, known + t, start)
  {
    var k := known + t;
    assert start !in t && current !in t;
    forall c | c in k
      ensures InBounds(next, c) && At(next, c).distance.Fin?
    {
    }
    forall c | c in k && c != start
      ensures ParentOf(next, c).Some? && ParentOf(next, c).value in visited
    {
      assert InBounds(cells, c);
    }
    RelinkedTree(cells, next, current, t, start, known, DistRank(cells, known), DistRank(next, k));
  }

  lemma SettlingOnGrid(cells: Cells, queue: seq<Coord>, visited: set<Coord>, known: set<Coord>, start: Coord)
    requires Settling(cells, queue, visited, known, start)
    ensures OnGrid(cells, queue)
  {
    forall i | 0 <= i < |queue|
      ensures InBounds(cells, queue[i])
    {
      assert queue[i] in queue;
    }
  }

  lemma Skipped(cells: Cells, sorted: seq<Coord>, visited: set<Coord>, known: set<Coord>, start: Coord)
    requires Settling(cells, sorted, visited, known, start) && |sorted| > 0
    ensures Settling(cells, sorted[1..], visited, known, start)
  {
    forall x | x in sorted[1..]
      ensures x in known
    {
      assert x in sorted;
    }
  }

  /**
   * A run of Dijkstra's algorithm from the given queue. `known` ranks the
   * parent links for the path read-back.
   */
  function Settle(cells: Cells, queue: seq<Coord>, visited: set<Coord>, start: Coord, goal: Coord,
                  ghost known: set<Coord>): (o: Outcome)
    requires Settling(cells, queue, visited, known, start)
    decreases |CellsOf(cells) - visited|, |queue|
  {
    if |queue| == 0 then Outcome(None, cells)
    else
      SettlingOnGrid(cells, queue, visited, known, start);
      SortQueueMembers(cells, queue, ByDistance);
      var sorted := SortQueue(cells, queue, ByDistance);
      var current := sorted[0];
      if current in visited then
        Skipped(cells, sorted, visited, known, start);
        Settle(cells, sorted[1..], visited, start, goal, known)
      else
        CheckedSettles(cells, sorted, visited, known, start);
        var marked := Checked(cells, current);
        if current == goal then
          TreeRanked(marked, start, DistRank(marked, known));
          Outcome(Some(Chain(marked, Some(goal), start, DistRank(marked, known))), marked)
        else
          var s := RelaxTurn(cells, sorted, visited);
          RelaxSettles(marked, current, sorted[1..], visited + {current}, known, start);
          assert |CellsOf(cells) - s.visited| < |CellsOf(cells) - visited| by {
            FewerLeft(CellsOf(cells), visited, s.visited);
          }
          Settle(s.cells, s.frontier, s.visited, start, goal, known + Members(s.frontier))
  }

  /** The grid with the start's distance set to 0, where the run begins. */
  function Seeded(cells: Cells, start: Coord): (r: Cells)
    requires Layout(cells) && InBounds(cells, start)
    ensures Settling(r, [start], {}, {start}, start)
  {
    assert At(cells, start).col == start.col && At(cells, start).row == start.row;
    var r := Put(cells, start, At(cells, start).(distance := Fin(0)));
    assert DistRank(r, {start}) == map[start := 0];
    r
  }

  /** `dijkstra(grid, start, goal)`. */
  function DijkstraOutcome(cells: Cells, start: Coord, goal: Coord): (o: Outcome)
    requires Layout(cells) && InBounds(cells, start)
  {
    Settle(Seeded(cells, start), [start], {}, start, goal, {start})
  }

  /** The in-place relaxation of `current`'s neighbours, each of which is on the grid. */
  method RelaxNeighbors(g: array2<Node>, current: Coord, nbrs: seq<Coord>, queue: seq<Coord>, visited: set<Coord>)
    returns (queue': seq<Coord>)
    requires InBounds(View(g), current)
    requires forall i :: 0 <= i < |nbrs| ==> InBounds(View(g), nbrs[i])
    modifies g
    ensures Sweep(View(g), queue', visited) == Relax(current, nbrs, Sweep(old(View(g)), queue, visited))
  {
    ghost var s0 := Sweep(View(g), queue, visited);
    queue' := queue;
    for k := 0 to |nbrs|
      invariant SameShape(View(g), s0.cells)
      invariant Relax(current, nbrs[k..], Sweep(View(g), queue', visited)) == Relax(current, nbrs, s0)
    {
      var nb := nbrs[k];
      assert nbrs[k..][0] == nb && nbrs[k..][1..] == nbrs[k + 1..];
      assert InBounds(View(g), nb);
      if g[nb.col, nb.row].solid || nb in visited {
      } else {
        var tentative := Plus(g[current.col, current.row].distance, 1);
        if CostLess(tentative, g[nb.col, nb.row].distance) {
          Store(g, nb, g[nb.col, nb.row].(distance := tentative, parent := Some(current), open := true));
          queue' := queue' + [nb];
        }
      }
    }
    assert nbrs[|nbrs|..] == [];
  }

  /**
   * One turn of the loop in place: sort, pop, and either skip a visited
   * cell, return the path at the goal, or relax the neighbours. Either way
   * the rest of the run is the run `Settle` describes from where the turn began.
   */
  method SettleStep(g: array2<Node>, queue: seq<Coord>, visited: set<Coord>, start: Coord, goal: Coord,
                    ghost known: set<Coord>)
    returns (path: Option<seq<Coord>>, queue': seq<Coord>, visited': set<Coord>, ghost known': set<Coord>)
    requires Settling(View(g), queue, visited, known, start) && |queue| > 0
    modifies g
    ensures path.Some? ==> Outcome(path, View(g)) == Settle(old(View(g)), queue, visited, start, goal, known)
    ensures path.None? ==>
      Settling(View(g), queue', visited', known', start) &&
      Settle(View(g), queue', visited', start, goal, known') == Settle(old(View(g)), queue, visited, start, goal, known) &&
      CellsOf(View(g)) == CellsOf(old(View(g))) && visited <= visited' &&
      (visited' == visited ==> |queue'| < |queue|)
  {
    ghost var before := View(g);
    SettlingOnGrid(before, queue, visited, known, start);
    SortQueueMembers(before, queue, ByDistance);
    var sorted := SortQueue(View(g), queue, ByDistance);
    var current := sorted[0];
    queue' := sorted[1..];
    if current in visited {
      Skipped(before, sorted, visited, known, start);
      return None, queue', visited, known;
    }
    CheckedSettles(before, sorted, visited, known, start);
    visited' := visited + {current};
    Store(g, current, g[current.col, current.row].(checked := true));
    ghost var marked := View(g);
    assert marked == Checked(before, current);
    if current == goal {
      TreeRanked(marked, start, DistRank(marked, known));
      var p := ReconstructPath(g, goal, start, DistRank(marked, known));
      return Some(p), queue', visited', known;
    }
    var nbrs := Neighbors(View(g), current);
    RelaxSettles(marked, current, queue', visited', known, start);
    assert forall i :: 0 <= i < |nbrs| ==> InBounds(marked, nbrs[i]) by {
      forall i | 0 <= i < |nbrs|
        ensures InBounds(marked, nbrs[i])
      {
        assert nbrs[i] in nbrs;
      }
    }
    queue' := RelaxNeighbors(g, current, nbrs, queue', visited');
    known' := known + Members(queue');
    path := None;
  }

  /** `dijkstra` in place. */
  method Search(g: array2<Node>, start: Coord, goal: Coord) returns (path: Option<seq<Coord>>)
    requires Layout(View(g)) && InBounds(View(g), start)
    modifies g
    ensures Outcome(path, View(g)) == DijkstraOutcome(old(View(g)), start, goal)
  {
    ghost var seeded := Seeded(View(g), start);
    var queue := [start];
    var visited: set<Coord> := {};
    Store(g, start, g[start.col, start.row].(distance := Fin(0)));
    assert View(g) == seeded;
    ghost var known := {start};
    while |queue| > 0
      invariant Settling(View(g), queue, visited, known, start)
      invariant Settle(View(g), queue, visited, start, goal, known) == DijkstraOutcome(old(View(g)), start, goal)
      decreases |CellsOf(View(g)) - visited|, |queue|
    {
      ghost var cellsBefore := CellsOf(View(g));
      ghost var visitedBefore := visited;
      path, queue, visited, known := SettleStep(g, queue, visited, start, goal, known);
      if path.Some? {
        return;
      }
      if visited != visitedBefore {
        FewerLeft(cellsBefore, visitedBefore, visited);
      }
    }
    return None;
  }
}
