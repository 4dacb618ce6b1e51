/**
 * A* as the engine runs it. The open list holds each cell at most once and
 * `openSet` holds the same cells; the closed set holds the cells already
 * expanded. Before each pop the open list is sorted by `fCost`, ties broken
 * by `gCost`; the popped cell leaves `openSet`, is marked checked and is
 * closed. At the goal the path is read back; otherwise every walkable
 * neighbour that is not closed is relinked to the popped cell, with its
 * cost so far, its Manhattan distance to the goal and their sum, when that
 * cost is lower than its current one or when it is not open yet; a
 * neighbour that was not open is then marked open and pushed.
 *
 * The cells the run has costed (open or closed) have their parent links
 * forming a search tree ranked by cost so far, and each of those links
 * leads to a closed cell, whose costs no longer change.
 */
module AStarSearch {
  import opened Types
  import opened GridModel
  import opened Adjacency
  import opened Walks
  import opened PathReconstruction
  import opened StableSort
  import opened FrontierSearch

  /** The state of a scan: the grid, the open list, `openSet` and the closed set. */
  datatype Fringe = Fringe(cells: Cells, open: seq<Coord>, openSet: set<Coord>, closed: set<Coord>)

  /** No cell occurs twice in the list. */
  ghost predicate Distinct(q: seq<Coord>)
  {
    forall x {:trigger multiset(q)[x]} :: multiset(q)[x] <= 1
  }

  /** The head of a list without repeats does not occur in its tail, which has no repeats either. */
  lemma DistinctTail(q: seq<Coord>)
    requires Distinct(q) && |q| > 0
    ensures Distinct(q[1..]) && q[0] !in q[1..]
  {
    assert q == [q[0]] + q[1..];
    assert multiset(q) == multiset{q[0]} + multiset(q[1..]);
    forall x
      ensures multiset(q[1..])[x] <= 1
    {
      assert multiset(q)[x] <= 1;
    }
    assert multiset(q)[q[0]] <= 1;
    assert multiset(q[1..])[q[0]] == 0;
  }

  /** The cost so far of every cell in `known`, which are on the grid with a finite cost. */
  ghost function GRank(cells: Cells, known: set<Coord>): (r: map<Coord, nat>)
    requires Rectangular(cells)
    requires forall c {:trigger c in known} :: c in known ==> InBounds(cells, c) && At(cells, c).gCost.Fin?
    ensures r.Keys == known
    ensures forall c {:trigger r[c]} :: c in r ==> r[c] == At(cells, c).gCost.n
  {
    map c | c in known :: At(cells, c).gCost.n
  }

  /**
   * What holds before each pop: the open list has no repeats and holds the
   * cells of `openSet`, which is disjoint from the closed set; the start is
   * open or closed; every open or closed cell is on the grid with a finite
   * cost so far, the start's 0; the parent of
   * every other costed cell is closed; and the parent links of the costed
   * cells form a search tree ranked by cost so far.
   */
  ghost predicate Costing(cells: Cells, open: seq<Coord>, openSet: set<Coord>, closed: set<Coord>, start: Coord, goal: Coord)
  {
    Layout(cells) && start in openSet + closed && openSet !! closed && Distinct(open) &&
    (forall x {:trigger x in open} :: x in open <==> x in openSet) &&
    (forall c {:trigger c in openSet + closed} :: c in openSet + closed ==> InBounds(cells, c) && At(cells, c).gCost.Fin?) &&
    At(cells, start).gCost == Fin(0) &&
    (forall c {:trigger ParentOf(cells, c)} :: c in openSet + closed && c != start ==>
      ParentOf(cells, c).Some? && ParentOf(cells, c).value in closed) &&
    ParentTree(cells, start, GRank(cells, openSet + closed))
  }

  /** `current.gCost + 1`. */
  function Tentative(cells: Cells, current: Coord): Cost
    requires Rectangular(cells) && InBounds(cells, current)
  {
    Plus(At(cells, current).gCost, 1)
  }

  /** Cell `c` with `current` as its parent and the costs of the route through `current`. */
  function Relinked(cells: Cells, current: Coord, goal: Coord, c: Coord): Node
    requires Rectangular(cells) && InBounds(cells, current) && InBounds(cells, c)
  {
    At(cells, c).(parent := Some(current), gCost := Tentative(cells, current), hCost := Fin(Manhattan(c, goal)),
                  fCost := Plus(Tentative(cells, current), Manhattan(c, goal)))
  }

  /**
   * The scan of `current`'s neighbours: a wall or a closed cell is skipped;
   * any other is relinked to `current` when the route through `current` is
   * cheaper than its cost so far or it is not open, and in the latter case
   * it is also marked open, added to `openSet` and pushed.
   */
  function Expand(current: Coord, goal: Coord, nbrs: seq<Coord>, s: Fringe): (r: Fringe)
    requires Rectangular(s.cells) && InBounds(s.cells, current)
    decreases |nbrs|
  {
    if |nbrs| == 0 then s
    else
      var nb := nbrs[0];
      if !Open(s.cells, nb) || nb in s.closed then Expand(current, goal, nbrs[1..], s)
      else if CostLess(Tentative(s.cells, current), At(s.cells, nb).gCost) || nb !in s.openSet then
        var n := Relinked(s.cells, current, goal, nb);
        if nb !in s.openSet then
          Expand(current, goal, nbrs[1..], Fringe(Put(s.cells, nb, n.(open := true)), s.open + [nb], s.openSet + {nb}, s.closed))
        else
          Expand(current, goal, nbrs[1..], Fringe(Put(s.cells, nb, n), s.open, s.openSet, s.closed))
      else Expand(current, goal, nbrs[1..], s)
  }

  /** The neighbours a scan relinks: listed, walkable, not closed, and either dearer than `Tentative` or not open. */
  function Better(cells: Cells, current: Coord, nbrs: seq<Coord>, openSet: set<Coord>, closed: set<Coord>): (t: set<Coord>)
    requires Rectangular(cells) && InBounds(cells, current)
    ensures forall x {:trigger x in t} :: x in t <==>
      x in nbrs && Open(cells, x) && x !in closed &&
      (CostLess(Tentative(cells, current), At(cells, x).gCost) || x !in openSet)
  {
    set x | x in nbrs && Open(cells, x) && x !in closed &&
            (CostLess(Tentative(cells, current), At(cells, x).gCost) || x !in openSet)
  }

  /** The relinked neighbours of a list: its head when that is relinked, then those of its tail. */
  lemma BetterStep(cells: Cells, current: Coord, nbrs: seq<Coord>, openSet: set<Coord>, closed: set<Coord>)
    requires Rectangular(cells) && InBounds(cells, current) && |nbrs| > 0
    ensures nbrs[0] !in Better(cells, current, nbrs, openSet, closed) ==>
      Better(cells, current, nbrs, openSet, closed) == Better(cells, current, nbrs[1..], openSet, closed)
    ensures nbrs[0] in Better(cells, current, nbrs, openSet, closed) ==>
      Better(cells, current, nbrs, openSet, closed) == Better(cells, current, nbrs[1..], openSet, closed) + {nbrs[0]}
  {
    assert forall x :: x in nbrs <==> x == nbrs[0] || x in nbrs[1..];
  }

  /** A relinked cell is open at the tentative cost afterwards, so it is not relinked again. */
  lemma BetterAfter(cells: Cells, current: Coord, goal: Coord, nbrs: seq<Coord>, openSet: set<Coord>, closed: set<Coord>,
                    nb: Coord, n: Node)
    requires Rectangular(cells) && InBounds(cells, current) && Open(cells, nb) && current in closed && nb !in closed
    requires n == Relinked(cells, current, goal, nb) || n == Relinked(cells, current, goal, nb).(open := true)
    ensures nb != current &&
      Better(Put(cells, nb, n), current, nbrs, openSet + {nb}, closed) ==
      Better(cells, current, nbrs, openSet, closed) - {nb}
  {
    var c := Put(cells, nb, n);
    PutKeepsOpen(cells, nb, n);
    assert Tentative(c, current) == Tentative(cells, current);
  }

  /**
   * What a scan does: it relinks exactly the cells `Better` names, marking
   * open and pushing exactly those that were not open, and changes nothing
   * else.
   */
  lemma ExpandCells(current: Coord, goal: Coord, nbrs: seq<Coord>, s: Fringe)
    requires Rectangular(s.cells) && InBounds(s.cells, current) && current in s.closed
    ensures var r := Expand(current, goal, nbrs, s);
      var t := Better(s.cells, current, nbrs, s.openSet, s.closed);
      Rectangular(r.cells) && SameShape(r.cells, s.cells) &&
      (Layout(s.cells) ==> Layout(r.cells)) && r.closed == s.closed && r.openSet == s.openSet + t &&
      |s.open| <= |r.open| && r.open[..|s.open|] == s.open &&
      (forall x {:trigger x in r.open} :: x in r.open <==> x in s.open || (x in t && x !in s.openSet)) &&
      forall c {:trigger At(r.cells, c)} :: InBounds(s.cells, c) ==>
        At(r.cells, c) ==
          if c !in t then At(s.cells, c)
          else if c in s.openSet then Relinked(s.cells, current, goal, c)
          else Relinked(s.cells, current, goal, c).(open := true)
  {
    ExpandGrid(current, goal, nbrs, s);
    ExpandLists(current, goal, nbrs, s);
    if Layout(s.cells) {
      LayoutPointwise(s.cells, Expand(current, goal, nbrs, s).cells);
    }
  }

  /** A scan relinks exactly the cells `Better` names, marking open those that were not, and changes no other cell. */
  lemma {:induction false} ExpandGrid(current: Coord, goal: Coord, nbrs: seq<Coord>, s: Fringe)
    requires Rectangular(s.cells) && InBounds(s.cells, current) && current in s.closed
    ensures var r := Expand(current, goal, nbrs, s);
      var t := Better(s.cells, current, nbrs, s.openSet, s.closed);
      Rectangular(r.cells) && SameShape(r.cells, s.cells) &&
      forall c {:trigger At(r.cells, c)} :: InBounds(s.cells, c) ==>
        At(r.cells, c) ==
          if c !in t then At(s.cells, c)
          else if c in s.openSet then Relinked(s.cells, current, goal, c)
          else Relinked(s.cells, current, goal, c).(open := true)
    decreases |nbrs|
  {
    if |nbrs| > 0 {
      var nb := nbrs[0];
      BetterStep(s.cells, current, nbrs, s.openSet, s.closed);
      if !Open(s.cells, nb) || nb in s.closed ||
         !(CostLess(Tentative(s.cells, current), At(s.cells, nb).gCost) || nb !in s.openSet) {
        ExpandGrid(current, goal, nbrs[1..], s);
      } else if nb !in s.openSet {
        var n := Relinked(s.cells, current, goal, nb).(open := true);
        var s' := Fringe(Put(s.cells, nb, n), s.open + [nb], s.openSet + {nb}, s.closed);
        BetterAfter(s.cells, current, goal, nbrs[1..], s.openSet, s.closed, nb, n);
        ExpandGrid(current, goal, nbrs[1..], s');
        GridStep(current, goal, nbrs, s, s', n);
      } else {
        var n := Relinked(s.cells, current, goal, nb);
        var s' := Fringe(Put(s.cells, nb, n), s.open, s.openSet, s.closed);
        assert s.openSet + {nb} == s.openSet;
        BetterAfter(s.cells, current, goal, nbrs[1..], s.openSet, s.closed, nb, n);
        ExpandGrid(current, goal, nbrs[1..], s');
        GridStep(current, goal, nbrs, s, s', n);
      }
    }
  }

  /** One relinking step of `ExpandGrid`: the rest of the scan, run from the relinked grid, has the effect claimed for the whole. */
  lemma GridStep(current: Coord, goal: Coord, nbrs: seq<Coord>, s: Fringe, s': Fringe, n: Node)
    requires Rectangular(s.cells) && InBounds(s.cells, current) && |nbrs| > 0
    requires InBounds(s.cells, nbrs[0]) && nbrs[0] != current && nbrs[0] in Better(s.cells, current, nbrs, s.openSet, s.closed)
    requires n == if nbrs[0] in s.openSet then Relinked(s.cells, current, goal, nbrs[0])
                  else Relinked(s.cells, current, goal, nbrs[0]).(open := true)
    requires s'.cells == Put(s.cells, nbrs[0], n) && s'.openSet == s.openSet + {nbrs[0]}
    requires Better(s'.cells, current, nbrs[1..], s'.openSet, s.closed) == Better(s.cells, current, nbrs, s.openSet, s.closed) - {nbrs[0]}
    requires var r := Expand(current, goal, nbrs[1..], s');
      var t := Better(s'.cells, current, nbrs[1..], s'.openSet, s.closed);
      Rectangular(r.cells) && SameShape(r.cells, s'.cells) &&
      forall c {:trigger At(r.cells, c)} :: InBounds(s'.cells, c) ==>
        At(r.cells, c) ==
          if c !in t then At(s'.cells, c)
          else if c in s'.openSet then Relinked(s'.cells, current, goal, c)
          else Relinked(s'.cells, current, goal, c).(open := true)
    ensures var r := Expand(current, goal, nbrs[1..], s');
      var t := Better(s.cells, current, nbrs, s.openSet, s.closed);
      forall c {:trigger At(r.cells, c)} :: InBounds(s.cells, c) ==>
        At(r.cells, c) ==
          if c !in t then At(s.cells, c)
          else if c in s.openSet then Relinked(s.cells, current, goal, c)
          else Relinked(s.cells, current, goal, c).(open := true)
  {
    var nb := nbrs[0];
    var r := Expand(current, goal, nbrs[1..], s');
    var t := Better(s.cells, current, nbrs, s.openSet, s.closed);
    assert Tentative(s'.cells, current) == Tentative(s.cells, current);
    forall c | InBounds(s.cells, c)
      ensures At(r.cells, c) ==
          if c !in t then At(s.cells, c)
          else if c in s.openSet then Relinked(s.cells, current, goal, c)
          else Relinked(s.cells, current, goal, c).(open := true)
    {
      if c != nb {
        assert At(s'.cells, c) == At(s.cells, c);
      }
    }
  }

  /** A scan adds exactly the cells `Better` names to `openSet`, and pushes those that were not open. */
  lemma {:induction false} ExpandLists(current: Coord, goal: Coord, nbrs: seq<Coord>, s: Fringe)
    requires Rectangular(s.cells) && InBounds(s.cells, current) && current in s.closed
    ensures var r := Expand(current, goal, nbrs, s);
      var t := Better(s.cells, current, nbrs, s.openSet, s.closed);
      r.closed == s.closed && r.openSet == s.openSet + t &&
      |s.open| <= |r.open| && r.open[..|s.open|] == s.open &&
      (forall x {:trigger x in r.open} :: x in r.open <==> x in s.open || (x in t && x !in s.openSet))
    decreases |nbrs|
  {
    if |nbrs| > 0 {
      var nb := nbrs[0];
      BetterStep(s.cells, current, nbrs, s.openSet, s.closed);
      if !Open(s.cells, nb) || nb in s.closed ||
         !(CostLess(Tentative(s.cells, current), At(s.cells, nb).gCost) || nb !in s.openSet) {
        ExpandLists(current, goal, nbrs[1..], s);
      } else if nb !in s.openSet {
        var n := Relinked(s.cells, current, goal, nb).(open := true);
        var s' := Fringe(Put(s.cells, nb, n), s.open + [nb], s.openSet + {nb}, s.closed);
        BetterAfter(s.cells, current, goal, nbrs[1..], s.openSet, s.closed, nb, n);
        ExpandLists(current, goal, nbrs[1..], s');
        var r := Expand(current, goal, nbrs[1..], s');
        assert r.open[..|s.open|] == (r.open[..|s'.open|])[..|s.open|];
      } else {
        var n := Relinked(s.cells, current, goal, nb);
        var s' := Fringe(Put(s.cells, nb, n), s.open, s.openSet, s.closed);
        assert s.openSet + {nb} == s.openSet;
        BetterAfter(s.cells, current, goal, nbrs[1..], s.openSet, s.closed, nb, n);
        ExpandLists(current, goal, nbrs[1..], s');
      }
    }
  }

  /** A scan keeps the open list free of repeats and in step with `openSet`. */
  lemma {:induction false} ExpandQueue(current: Coord, goal: Coord, nbrs: seq<Coord>, s: Fringe)
    requires Rectangular(s.cells) && InBounds(s.cells, current)
    requires Distinct(s.open) && forall x {:trigger x in s.open} :: x in s.open <==> x in s.openSet
    ensures var r := Expand(current, goal, nbrs, s);
      Distinct(r.open) && forall x {:trigger x in r.open} :: x in r.open <==> x in r.openSet
    decreases |nbrs|
  {
    if |nbrs| > 0 {
      var nb := nbrs[0];
      if !Open(s.cells, nb) || nb in s.closed ||
         !(CostLess(Tentative(s.cells, current), At(s.cells, nb).gCost) || nb !in s.openSet) {
        ExpandQueue(current, goal, nbrs[1..], s);
      } else {
        var n := Relinked(s.cells, current, goal, nb);
        if nb !in s.openSet {
          var q := s.open + [nb];
          assert multiset(q) == multiset(s.open) + multiset{nb};
          assert nb !in s.open;
          assert multiset(s.open)[nb] == 0;
          ExpandQueue(current, goal, nbrs[1..], Fringe(Put(s.cells, nb, n.(open := true)), q, s.openSet + {nb}, s.closed));
        } else {
          ExpandQueue(current, goal, nbrs[1..], Fringe(Put(s.cells, nb, n), s.open, s.openSet, s.closed));
        }
      }
    }
  }

  /** The node-wise effect of a scan, field by field. */
  lemma ExpandedFields(cells: Cells, next: Cells, current: Coord, goal: Coord, openSet: set<Coord>, t: set<Coord>)
    requires Rectangular(cells) && InBounds(cells, current)
    requires Rectangular(next) && SameShape(next, cells)
    requires forall c {:trigger At(next, c)} :: InBounds(cells, c) ==>
      At(next, c) ==
        if c !in t then At(cells, c)
        else if c in openSet then Relinked(cells, current, goal, c)
        else Relinked(cells, current, goal, c).(open := true)
    ensures forall c {:trigger ParentOf(next, c)} :: InBounds(cells, c) ==>
      ParentOf(next, c) == if c in t then Some(current) else ParentOf(cells, c)
    ensures forall c {:trigger Open(next, c)} :: Open(next, c) == Open(cells, c)
    ensures forall c {:trigger At(next, c)} :: InBounds(cells, c) ==>
      At(next, c).gCost == if c in t then Tentative(cells, current) else At(cells, c).gCost
    ensures forall c {:trigger At(next, c)} :: InBounds(cells, c) ==>
      At(next, c).hCost == (if c in t then Fin(Manhattan(c, goal)) else At(cells, c).hCost) &&
      At(next, c).fCost == (if c in t then Plus(Tentative(cells, current), Manhattan(c, goal)) else At(cells, c).fCost)
  {
    forall c
      ensures Open(next, c) == Open(cells, c)
    {
      if InBounds(cells, c) {
        assert At(next, c).solid == At(cells, c).solid;
      }
    }
  }

  /** The costs of the known cells after relinking `t` through `current`. */
  lemma RelinkedRanks(cells: Cells, next: Cells, current: Coord, t: set<Coord>, known: set<Coord>)
    requires Rectangular(cells) && Rectangular(next) && SameShape(next, cells) && current in known
    requires forall c {:trigger c in known} :: c in known ==> InBounds(cells, c) && At(cells, c).gCost.Fin?
    requires forall x {:trigger x in t} :: x in t ==> InBounds(cells, x)
    requires forall c {:trigger At(next, c)} :: InBounds(cells, c) ==>
      At(next, c).gCost == if c in t then Tentative(cells, current) else At(cells, c).gCost
    ensures forall c {:trigger c in known + t} :: c in known + t ==> InBounds(next, c) && At(next, c).gCost.Fin?
    ensures var d := GRank(cells, known); var d' := GRank(next, known + t);
      forall x {:trigger d'[x]} :: x in d' ==> d'[x] == if x in t then d[current] + 1 else d[x]
  {
    forall c | c in known + t
      ensures InBounds(next, c) && At(next, c).gCost.Fin?
    {
      assert InBounds(cells, c);
    }
  }

  /**
   * `Costing` after the cells `t`, walkable neighbours of the closed cell
   * `current` that are not closed and are either dearer than the route
   * through `current` or not open, take `current` as parent with the costs
   * of that route and are open.
   */
  lemma CostingGrows(cells: Cells, next: Cells, current: Coord, t: set<Coord>, open': seq<Coord>,
                     openSet: set<Coord>, closed: set<Coord>, start: Coord, goal: Coord, q: seq<Coord>)
    requires Costing(cells, q, openSet, closed, start, goal) && current in closed
    requires forall x {:trigger x in t} :: x in t ==>
      Open(cells, x) && Adjacent(current, x) && x !in closed &&
      (CostLess(Tentative(cells, current), At(cells, x).gCost) || x !in openSet)
    requires Layout(next) && SameShape(next, cells)
    requires forall c {:trigger ParentOf(next, c)} :: InBounds(cells, c) ==>
      ParentOf(next, c) == if c in t then Some(current) else ParentOf(cells, c)
    requires forall c {:trigger Open(next, c)} :: Open(next, c) == Open(cells, c)
    requires forall c {:trigger At(next, c)} :: InBounds(cells, c) ==>
      At(next, c).gCost == if c in t then Tentative(cells, current) else At(cells, c).gCost
    requires Distinct(open') && forall x {:trigger x in open'} :: x in open' <==> x in openSet + t
    ensures Costing(next, open', openSet + t, closed, start, goal)
  {
    var k := (openSet + t) + closed;
    assert k == (openSet + closed) + t;
    GrowsTree(cells, next, current, t, openSet, closed, start, goal, q);
    forall c | c in k && c != start
      ensures ParentOf(next, c).Some? && ParentOf(next, c).value in closed
    {
      assert InBounds(cells, c);
    }
  }

  /** The relinked parent links of `CostingGrows` form a search tree ranked by the new costs so far. */
  lemma GrowsTree(cells: Cells, next: Cells, current: Coord, t: set<Coord>,
                  openSet: set<Coord>, closed: set<Coord>, start: Coord, goal: Coord, q: seq<Coord>)
    requires Costing(cells, q, openSet, closed, start, goal) && current in closed
    requires forall x {:trigger x in t} :: x in t ==>
      Open(cells, x) && Adjacent(current, x) && x !in closed &&
      (CostLess(Tentative(cells, current), At(cells, x).gCost) || x !in openSet)
    requires Layout(next) && SameShape(next, cells)
    requires forall c {:trigger ParentOf(next, c)} :: InBounds(cells, c) ==>
      ParentOf(next, c) == if c in t then Some(current) else ParentOf(cells, c)
    requires forall c {:trigger Open(next, c)} :: Open(next, c) == Open(cells, c)
    requires forall c {:trigger At(next, c)} :: InBounds(cells, c) ==>
      At(next, c).gCost == if c in t then Tentative(cells, current) else At(cells, c).gCost
    ensures forall c {:trigger c in (openSet + t) + closed} :: c in (openSet + t) + closed ==>
      InBounds(next, c) && At(next, c).gCost.Fin?
    ensures ParentTree(next, start, GRank(next, (openSet + t) + closed))
  {
    var known := openSet + closed;
    assert (openSet + t) + closed == known + t;
    assert start !in t && current !in t;
    RelinkedRanks(cells, next, current, t, known);
    RelinkedTree(cells, next, current, t, start, known, GRank(cells, known), GRank(next, known + t));
  }

  /**
   * Scanning the neighbours of a closed cell keeps `Costing`, with the
   * relinked cells open.
   */
  lemma ExpandCosts(cells: Cells, current: Coord, rest: seq<Coord>, openSet: set<Coord>, closed: set<Coord>,
                    start: Coord, goal: Coord)
    requires Costing(cells, rest, openSet, closed, start, goal) && current in closed
    ensures var s := Expand(current, goal, Neighbors(cells, current), Fringe(cells, rest, openSet, closed));
      Costing(s.cells, s.open, s.openSet, s.closed, start, goal) &&
      CellsOf(s.cells) == CellsOf(cells) && s.closed == closed
  {
    var nbrs := Neighbors(cells, current);
    var s0 := Fringe(cells, rest, openSet, closed);
    var s := Expand(current, goal, nbrs, s0);
    var t := Better(cells, current, nbrs, openSet, closed);
    assert InBounds(cells, current);
    ExpandCells(current, goal, nbrs, s0);
    ExpandQueue(current, goal, nbrs, s0);
    assert CellsOf(s.cells) == CellsOf(cells);
    ExpandedFields(cells, s.cells, current, goal, openSet, t);
    CostingGrows(cells, s.cells, current, t, s.open, openSet, closed, start, goal, rest);
  }

  /** The open list is on the grid. */
  lemma CostingOnGrid(cells: Cells, open: seq<Coord>, openSet: set<Coord>, closed: set<Coord>, start: Coord, goal: Coord)
    requires Costing(cells, open, openSet, closed, start, goal)
    ensures OnGrid(cells, open)
  {
    forall i | 0 <= i < |open|
      ensures InBounds(cells, open[i])
    {
      assert open[i] in open;
      assert open[i] in openSet + closed;
    }
  }

  /** `Costing` depends only on the layout, the walls, the costs so far and the parent links. */
  lemma CostingFrame(a: Cells, b: Cells, open: seq<Coord>, openSet: set<Coord>, closed: set<Coord>, start: Coord, goal: Coord)
    requires Costing(a, open, openSet, closed, start, goal)
    requires Layout(b) && SameShape(a, b)
    requires forall c {:trigger At(b, c)} :: InBounds(a, c) ==>
      At(b, c).parent == At(a, c).parent && At(b, c).solid == At(a, c).solid &&
      At(b, c).gCost == At(a, c).gCost
    ensures Costing(b, open, openSet, closed, start, goal) &&
      GRank(b, openSet + closed) == GRank(a, openSet + closed)
  {
    var known := openSet + closed;
    forall c | c in known
      ensures InBounds(b, c) && At(b, c).gCost.Fin?
    {
      assert InBounds(a, c);
    }
    assert GRank(b, known) == GRank(a, known);
    ParentTreeFrame(a, b, start, GRank(a, known));
    forall c | c in known && c != start
      ensures ParentOf(b, c) == ParentOf(a, c)
    {
      assert InBounds(a, c);
    }
  }

  /** Sorting the open list keeps `Costing`. */
  lemma SortedCosting(cells: Cells, open: seq<Coord>, openSet: set<Coord>, closed: set<Coord>, start: Coord, goal: Coord)
    requires Costing(cells, open, openSet, closed, start, goal)
    ensures OnGrid(cells, open) &&
      |SortQueue(cells, open, ByCost)| == |open| &&
      Costing(cells, SortQueue(cells, open, ByCost), openSet, closed, start, goal)
  {
    CostingOnGrid(cells, open, openSet, closed, start, goal);
    SortQueueSorted(cells, open, ByCost);
    SortQueueMembers(cells, open, ByCost);
  }

  /** Moving the head of the open list from `openSet` to the closed set keeps `Costing`. */
  lemma PoppedCosting(cells: Cells, q: seq<Coord>, openSet: set<Coord>, closed: set<Coord>, start: Coord, goal: Coord)
    requires Costing(cells, q, openSet, closed, start, goal) && |q| > 0
    ensures q[0] in openSet && InBounds(cells, q[0]) &&
      Costing(cells, q[1..], openSet - {q[0]}, closed + {q[0]}, start, goal)
  {
    var c := q[0];
    assert c in q;
    assert c in openSet + closed;
    DistinctTail(q);
    assert (openSet - {c}) + (closed + {c}) == openSet + closed;
    forall x | x in q[1..]
      ensures x in openSet - {c}
    {
      assert x in q;
    }
    forall x | x in openSet - {c}
      ensures x in q[1..]
    {
      assert x in q;
      InTail(q, x);
    }
  }

  /**
   * Sorting the open list, popping its head, removing it from `openSet`,
   * marking it checked and closing it keeps `Costing`.
   */
  lemma PopCosts(cells: Cells, open: seq<Coord>, openSet: set<Coord>, closed: set<Coord>, start: Coord, goal: Coord)
    requires Costing(cells, open, openSet, closed, start, goal) && |open| > 0
    ensures OnGrid(cells, open)
    ensures var sorted := SortQueue(cells, open, ByCost);
      var c := sorted[0];
      |sorted| == |open| && c in openSet && InBounds(cells, c) &&
      Costing(Checked(cells, c), sorted[1..], openSet - {c}, closed + {c}, start, goal) &&
      GRank(Checked(cells, c), openSet + closed) == GRank(cells, openSet + closed) &&
      ParentTree(Checked(cells, c), start, GRank(Checked(cells, c), openSet + closed))
  {
    SortedCosting(cells, open, openSet, closed, start, goal);
    var sorted := SortQueue(cells, open, ByCost);
    var c := sorted[0];
    PoppedCosting(cells, sorted, openSet, closed, start, goal);
    CheckedCosting(cells, sorted[1..], openSet - {c}, closed + {c}, start, goal, c);
    assert (openSet - {c}) + (closed + {c}) == openSet + closed;
  }

  /** Marking a cell checked keeps `Costing`. */
  lemma CheckedCosting(cells: Cells, q: seq<Coord>, openSet: set<Coord>, closed: set<Coord>, start: Coord, goal: Coord,
                       c: Coord)
    requires Costing(cells, q, openSet, closed, start, goal) && InBounds(cells, c)
    ensures Costing(Checked(cells, c), q, openSet, closed, start, goal) &&
      GRank(Checked(cells, c), openSet + closed) == GRank(cells, openSet + closed)
  {
    assert cells[c.col][c.row].col == c.col && cells[c.col][c.row].row == c.row;
    CostingFrame(cells, Checked(cells, c), q, openSet, closed, start, goal);
  }

  /**
   * The turn after a pop of `sorted[0]` that is not the goal: the cell has
   * left the open list and `openSet`, is marked checked and closed, and its
   * neighbours are scanned.
   */
  function ExpandTurn(cells: Cells, sorted: seq<Coord>, openSet: set<Coord>, closed: set<Coord>, goal: Coord): Fringe
    requires Rectangular(cells) && |sorted| > 0 && InBounds(cells, sorted[0])
  {
    var current := sorted[0];
    var marked := Checked(cells, current);
    Expand(current, goal, Neighbors(marked, current), Fringe(marked, sorted[1..], openSet - {current}, closed + {current}))
  }

  /**
   * A run of A* from the given open list: it ends with no path when the
   * list runs out, and with the path read back along the parent links when
   * the goal is popped.
   */
  function Seek(cells: Cells, open: seq<Coord>, openSet: set<Coord>, closed: set<Coord>, start: Coord, goal: Coord): (o: Outcome)
    requires Costing(cells, open, openSet, closed, start, goal)
    decreases |CellsOf(cells) - closed|
  {
    if |open| == 0 then Outcome(None, cells)
    else
      PopCosts(cells, open, openSet, closed, start, goal);
      var sorted := SortQueue(cells, open, ByCost);
      var current := sorted[0];
      var marked := Checked(cells, current);
      if current == goal then
        TreeRanked(marked, start, GRank(marked, openSet + closed));
        Outcome(Some(Chain(marked, Some(goal), start, GRank(marked, openSet + closed))), marked)
      else
        var s := ExpandTurn(cells, sorted, openSet, closed, goal);
        ExpandCosts(marked, current, sorted[1..], openSet - {current}, closed + {current}, start, goal);
        assert |CellsOf(cells) - s.closed| < |CellsOf(cells) - closed| by {
          Closable(cells, open, openSet, closed, start, goal, current);
          FewerLeft(CellsOf(cells), closed, s.closed);
        }
        Seek(s.cells, s.open, s.openSet, s.closed, start, goal)
  }

  /** The popped cell is an open cell of the grid. */
  lemma PopOnGrid(cells: Cells, open: seq<Coord>, openSet: set<Coord>, closed: set<Coord>, start: Coord, goal: Coord)
    requires Costing(cells, open, openSet, closed, start, goal) && |open| > 0
    ensures OnGrid(cells, open) && |SortQueue(cells, open, ByCost)| == |open| &&
      InBounds(cells, SortQueue(cells, open, ByCost)[0])
  {
    PopCosts(cells, open, openSet, closed, start, goal);
  }

  /** A turn that pops the goal ends the run with the path read back from the goal. */
  lemma SeekGoal(cells: Cells, open: seq<Coord>, openSet: set<Coord>, closed: set<Coord>, start: Coord, goal: Coord)
    requires Costing(cells, open, openSet, closed, start, goal) && |open| > 0
    requires SortQueue(cells, open, ByCost)[0] == goal
    ensures InBounds(cells, goal) &&
      var marked := Checked(cells, goal);
      var rank := GRank(marked, openSet + closed);
      Ranked(marked, start, rank) && goal in rank &&
      Seek(cells, open, openSet, closed, start, goal) == Outcome(Some(Chain(marked, Some(goal), start, rank)), marked)
  {
    PopCosts(cells, open, openSet, closed, start, goal);
    var marked := Checked(cells, goal);
    TreeRanked(marked, start, GRank(marked, openSet + closed));
  }

  /** A turn that pops a cell other than the goal keeps `Costing`, closes one more cell and leaves the rest of the run to `Seek`. */
  lemma SeekUnfold(cells: Cells, open: seq<Coord>, openSet: set<Coord>, closed: set<Coord>, start: Coord, goal: Coord)
    requires Costing(cells, open, openSet, closed, start, goal) && |open| > 0
    requires SortQueue(cells, open, ByCost)[0] != goal
    ensures var sorted := SortQueue(cells, open, ByCost);
      InBounds(cells, sorted[0]) &&
      var s := ExpandTurn(cells, sorted, openSet, closed, goal);
      Costing(s.cells, s.open, s.openSet, s.closed, start, goal) &&
      Seek(s.cells, s.open, s.openSet, s.closed, start, goal) == Seek(cells, open, openSet, closed, start, goal) &&
      CellsOf(s.cells) == CellsOf(cells) && s.closed <= CellsOf(cells) && closed < s.closed
  {
    PopCosts(cells, open, openSet, closed, start, goal);
    var sorted := SortQueue(cells, open, ByCost);
    var current := sorted[0];
    var marked := Checked(cells, current);
    ExpandCosts(marked, current, sorted[1..], openSet - {current}, closed + {current}, start, goal);
    Closable(cells, open, openSet, closed, start, goal, current);
  }

  /** Closed cells and the popped open cell are cells of the grid. */
  lemma Closable(cells: Cells, open: seq<Coord>, openSet: set<Coord>, closed: set<Coord>, start: Coord, goal: Coord, c: Coord)
    requires Costing(cells, open, openSet, closed, start, goal) && c in openSet
    ensures closed + {c} <= CellsOf(cells) && c !in closed
  {
    forall x | x in closed + {c}
      ensures x in CellsOf(cells)
    {
      assert x in openSet + closed;
    }
  }

  /** The grid after the setup: the start's cost so far is 0, with its Manhattan distance and their sum. */
  function Primed(cells: Cells, start: Coord, goal: Coord): (r: Cells)
    requires Layout(cells) && InBounds(cells, start)
    ensures Costing(r, [start], {start}, {}, start, goal)
  {
    assert At(cells, start).col == start.col && At(cells, start).row == start.row;
    var h := Manhattan(start, goal);
    var r := Put(cells, start, At(cells, start).(gCost := Fin(0), hCost := Fin(h), fCost := Fin(0 + h)));
    assert GRank(r, {start} + {}) == map[start := 0];
    r
  }

  /** `aStar(grid, start, goal)`. */
  function AStarOutcome(cells: Cells, start: Coord, goal: Coord): (o: Outcome)
    requires Layout(cells) && InBounds(cells, start)
  {
    Seek(Primed(cells, start, goal), [start], {start}, {}, start, goal)
  }

  /** The in-place scan of `current`'s neighbours, each of which is on the grid. */
  method ExpandNeighbors(g: array2<Node>, current: Coord, goal: Coord, nbrs: seq<Coord>,
                         open: seq<Coord>, openSet: set<Coord>, closed: set<Coord>)
    returns (open': seq<Coord>, openSet': set<Coord>)
    requires InBounds(View(g), current)
    requires forall i :: 0 <= i < |nbrs| ==> InBounds(View(g), nbrs[i])
    modifies g
    ensures Fringe(View(g), open', openSet', closed) == Expand(current, goal, nbrs, Fringe(old(View(g)), open, openSet, closed))
  {
    ghost var s0 := Fringe(View(g), open, openSet, closed);
    open', openSet' := open, openSet;
    for k := 0 to |nbrs|
      invariant SameShape(View(g), s0.cells)
      invariant Expand(current, goal, nbrs[k..], Fringe(View(g), open', openSet', closed)) == Expand(current, goal, nbrs, s0)
    {
      var nb := nbrs[k];
      assert nbrs[k..][0] == nb && nbrs[k..][1..] == nbrs[k + 1..];
      assert InBounds(View(g), nb);
      if g[nb.col, nb.row].solid || nb in closed {
      } else {
        var tentativeG := Plus(g[current.col, current.row].gCost, 1);
        var betterPath := CostLess(tentativeG, g[nb.col, nb.row].gCost) || nb !in openSet';
        if betterPath {
          var h := Manhattan(nb, goal);
          var n := g[nb.col, nb.row].(parent := Some(current), gCost := tentativeG, hCost := Fin(h),
                                      fCost := Plus(tentativeG, h));
          if nb !in openSet' {
            Store(g, nb, n.(open := true));
            openSet' := openSet' + {nb};
            open' := open' + [nb];
          } else {
            Store(g, nb, n);
          }
        }
      }
    }
    assert nbrs[|nbrs|..] == [];
  }

  /** The pop in place: sort the open list by cost, take its head out of the list and `openSet`, mark it checked and close it. */
  method Pop(g: array2<Node>, open: seq<Coord>, openSet: set<Coord>, closed: set<Coord>, ghost start: Coord, ghost goal: Coord)
    returns (current: Coord, open': seq<Coord>, openSet': set<Coord>, closed': set<Coord>)
    requires Costing(View(g), open, openSet, closed, start, goal) && |open| > 0
    modifies g
    ensures var sorted := SortQueue(old(View(g)), open, ByCost);
      |sorted| == |open| && current == sorted[0] && open' == sorted[1..] &&
      openSet' == openSet - {current} && closed' == closed + {current} &&
      InBounds(old(View(g)), current) && View(g) == Checked(old(View(g)), current)
  {
    ghost var before := View(g);
    PopOnGrid(before, open, openSet, closed, start, goal);
    var sorted := SortQueue(View(g), open, ByCost);
    current := sorted[0];
    open' := sorted[1..];
    openSet' := openSet - {current};
    Store(g, current, g[current.col, current.row].(checked := true));
    closed' := closed + {current};
  }

  /**
   * One turn of the loop in place: sort, pop, close, and either return the
   * path at the goal or scan the neighbours. Either way the rest of the run
   * is the run `Seek` describes from where the turn began.
   */
  method SeekStep(g: array2<Node>, open: seq<Coord>, openSet: set<Coord>, closed: set<Coord>, start: Coord, goal: Coord)
    returns (path: Option<seq<Coord>>, open': seq<Coord>, openSet': set<Coord>, closed': set<Coord>)
    requires Costing(View(g), open, openSet, closed, start, goal) && |open| > 0
    modifies g
    ensures path.Some? ==> Outcome(path, View(g)) == Seek(old(View(g)), open, openSet, closed, start, goal)
    ensures path.None? ==>
      Costing(View(g), open', openSet', closed', start, goal) &&
      Seek(View(g), open', openSet', closed', start, goal) == Seek(old(View(g)), open, openSet, closed, start, goal) &&
      CellsOf(View(g)) == CellsOf(old(View(g))) && closed' <= CellsOf(View(g)) &&
      closed < closed'
  {
    ghost var before := View(g);
    var current;
    current, open', openSet', closed' := Pop(g, open, openSet, closed, start, goal);
    if current == goal {
      var p := Finish(g, goal, start, before, open, openSet, closed);
      return Some(p), open', openSet', closed';
    }
    open', openSet' := Advance(g, current, goal, open', openSet', closed', before, open, openSet, closed, start);
    path := None;
  }

  /** The rest of a turn that popped the goal: the path read back in place. */
  method Finish(g: array2<Node>, goal: Coord, start: Coord,
                ghost before: Cells, ghost open: seq<Coord>, ghost openSet: set<Coord>, ghost closed: set<Coord>)
    returns (p: seq<Coord>)
    requires Costing(before, open, openSet, closed, start, goal) && |open| > 0
    requires SortQueue(before, open, ByCost)[0] == goal && InBounds(before, goal) && View(g) == Checked(before, goal)
    ensures Outcome(Some(p), View(g)) == Seek(before, open, openSet, closed, start, goal)
  {
    SeekGoal(before, open, openSet, closed, start, goal);
    p := ReconstructPath(g, goal, start, GRank(View(g), openSet + closed));
  }

  /** The rest of a turn that popped a cell other than the goal: the in-place scan of its neighbours. */
  method Advance(g: array2<Node>, current: Coord, goal: Coord, rest: seq<Coord>, openSet': set<Coord>, closed': set<Coord>,
                 ghost before: Cells, ghost open: seq<Coord>, ghost openSet: set<Coord>, ghost closed: set<Coord>, ghost start: Coord)
    returns (open'': seq<Coord>, openSet'': set<Coord>)
    requires Costing(before, open, openSet, closed, start, goal) && |open| > 0
    requires var sorted := SortQueue(before, open, ByCost);
      |sorted| == |open| && current == sorted[0] && current != goal && rest == sorted[1..] &&
      openSet' == openSet - {current} && closed' == closed + {current} &&
      InBounds(before, current) && View(g) == Checked(before, current)
    modifies g
    ensures Costing(View(g), open'', openSet'', closed', start, goal) &&
      Seek(View(g), open'', openSet'', closed', start, goal) == Seek(before, open, openSet, closed, start, goal) &&
      CellsOf(View(g)) == CellsOf(before) && closed' <= CellsOf(View(g)) &&
      closed < closed'
  {
    SeekUnfold(before, open, openSet, closed, start, goal);
    var nbrs := Neighbors(View(g), current);
    assert forall i :: 0 <= i < |nbrs| ==> InBounds(View(g), nbrs[i]) by {
      forall i | 0 <= i < |nbrs|
        ensures InBounds(View(g), nbrs[i])
      {
        assert nbrs[i] in nbrs;
      }
    }
    open'', openSet'' := ExpandNeighbors(g, current, goal, nbrs, rest, openSet', closed');
  }

  /** `aStar` in place. */
  method Search(g: array2<Node>, start: Coord, goal: Coord) returns (path: Option<seq<Coord>>)
    requires Layout(View(g)) && InBounds(View(g), start)
    modifies g
    ensures Outcome(path, View(g)) == AStarOutcome(old(View(g)), start, goal)
  {
    ghost var primed := Primed(View(g), start, goal);
    var open := [start];
    var openSet := {start};
    var closed: set<Coord> := {};
    var h := Manhattan(start, goal);
    Store(g, start, g[start.col, start.row].(gCost := Fin(0), hCost := Fin(h), fCost := Fin(0 + h)));
    assert View(g) == primed;
    while |open| > 0
      invariant Costing(View(g), open, openSet, closed, start, goal)
      invariant Seek(View(g), open, openSet, closed, start, goal) == AStarOutcome(old(View(g)), start, goal)
      decreases |CellsOf(View(g)) - closed|
    {
      ghost var cellsBefore := CellsOf(View(g));
      ghost var closedBefore := closed;
      path, open, openSet, closed := SeekStep(g, open, openSet, closed, start, goal);
      if path.Some? {
        return;
      }
      FewerLeft(cellsBefore, closedBefore, closed);
    }
    return None;
  }
}
