/**
 * The queue ordering of Dijkstra and A*. Both re-sort their whole queue with
 * `Array.prototype.sort` before each pop; that sort is stable (ECMAScript
 * 2019), so its result is determined by the comparator alone. The model is a
 * stable insertion sort, proved to return a sorted permutation of its input
 * that keeps cells the comparator ties in their original order.
 */
module StableSort {
  import opened Types
  import opened GridModel

  /** The two comparators: by `distance` (Dijkstra) and by `fCost`, then `gCost` (A*). */
  datatype Order = ByDistance | ByCost

  /**
   * The comparator is negative: `a.distance - b.distance < 0`, or
   * `(a.fCost === b.fCost ? a.gCost - b.gCost : a.fCost - b.fCost) < 0`.
   * `Infinity - Infinity` is `NaN`, which the sort treats as a tie.
   */
  predicate Precedes(a: Node, b: Node, ord: Order)
  {
    match ord
    case ByDistance => CostLess(a.distance, b.distance)
    case ByCost => if a.fCost == b.fCost then CostLess(a.gCost, b.gCost) else CostLess(a.fCost, b.fCost)
  }

  /** The comparator is a strict weak order: irreflexive, asymmetric, and its ties are transitive. */
  lemma PrecedesOrder(a: Node, b: Node, c: Node, ord: Order)
    ensures !Precedes(a, a, ord)
    ensures Precedes(a, b, ord) ==> !Precedes(b, a, ord)
    ensures !Precedes(b, a, ord) && !Precedes(c, b, ord) ==> !Precedes(c, a, ord)
    ensures Precedes(a, b, ord) && !Precedes(c, b, ord) ==> Precedes(a, c, ord)
  {
  }

  /** The cells of a queue. */
  ghost function Members(q: seq<Coord>): (m: set<Coord>)
    ensures forall x {:trigger x in m} :: x in m <==> x in q
  {
    set x | x in q
  }

  /** A queued cell other than the head is in the rest of the queue. */
  lemma InTail(q: seq<Coord>, x: Coord)
    requires x in q && x != q[0]
    ensures x in q[1..]
  {
    var i :| 0 <= i < |q| && q[i] == x;
    assert q[1..][i - 1] == x;
  }

  predicate OnGrid(cells: Cells, q: seq<Coord>)
  {
    Rectangular(cells) && forall i :: 0 <= i < |q| ==> InBounds(cells, q[i])
  }

  /** The node at `x` sorts strictly before the node at `y`. */
  predicate Before(cells: Cells, x: Coord, y: Coord, ord: Order)
  {
    Rectangular(cells) && InBounds(cells, x) && InBounds(cells, y) &&
    Precedes(At(cells, x), At(cells, y), ord)
  }

  /** No cell sorts strictly before an earlier one. */
  ghost predicate Sorted(cells: Cells, q: seq<Coord>, ord: Order)
  {
    forall i, j :: 0 <= i < j < |q| ==> !Before(cells, q[j], q[i], ord)
  }

  /** Places `x` after every cell that does not sort strictly after it. */
  function Insert(cells: Cells, s: seq<Coord>, x: Coord, ord: Order): (r: seq<Coord>)
    ensures |r| == |s| + 1
  {
    if |s| == 0 then [x]
    else if Before(cells, x, s[0], ord) then [x] + s
    else [s[0]] + Insert(cells, s[1..], x, ord)
  }

  /** `queue.sort(comparator)`. */
  function SortQueue(cells: Cells, q: seq<Coord>, ord: Order): (r: seq<Coord>)
    ensures |r| == |q|
  {
    if |q| == 0 then []
    else Insert(cells, SortQueue(cells, q[..|q| - 1], ord), q[|q| - 1], ord)
  }

  lemma {:induction false} InsertPermutes(cells: Cells, s: seq<Coord>, x: Coord, ord: Order)
    requires OnGrid(cells, s) && InBounds(cells, x)
    ensures multiset(Insert(cells, s, x, ord)) == multiset(s) + multiset{x}
    ensures OnGrid(cells, Insert(cells, s, x, ord))
  {
    InsertMultiset(cells, s, x, ord);
    var r := Insert(cells, s, x, ord);
    forall i | 0 <= i < |r|
      ensures InBounds(cells, r[i])
    {
      assert r[i] in multiset(r);
      if r[i] != x {
        assert r[i] in multiset(s);
        var k :| 0 <= k < |s| && s[k] == r[i];
      }
    }
  }

  lemma {:induction false} InsertMultiset(cells: Cells, s: seq<Coord>, x: Coord, ord: Order)
    ensures multiset(Insert(cells, s, x, ord)) == multiset(s) + multiset{x}
  {
    if |s| > 0 && !Before(cells, x, s[0], ord) {
      InsertMultiset(cells, s[1..], x, ord);
      assert s == [s[0]] + s[1..];
    }
  }

  lemma {:induction false} InsertSorted(cells: Cells, s: seq<Coord>, x: Coord, ord: Order)
    requires OnGrid(cells, s) && InBounds(cells, x) && Sorted(cells, s, ord)
    ensures Sorted(cells, Insert(cells, s, x, ord), ord)
  {
    if |s| == 0 {
    } else if Before(cells, x, s[0], ord) {
      InsertFrontSorted(cells, s, x, ord);
    } else {
      SortedTail(cells, s, ord);
      InsertSorted(cells, s[1..], x, ord);
      InsertLaterSorted(cells, s, x, ord);
    }
  }

  /** Placing `x` in front of a sorted queue whose head it sorts before. */
  lemma InsertFrontSorted(cells: Cells, s: seq<Coord>, x: Coord, ord: Order)
    requires OnGrid(cells, s) && InBounds(cells, x) && Sorted(cells, s, ord)
    requires |s| > 0 && Before(cells, x, s[0], ord)
    ensures Sorted(cells, [x] + s, ord)
  {
    var r := [x] + s;
    forall i, j | 0 <= i < j < |r|
      ensures !Before(cells, r[j], r[i], ord)
    {
      if i == 0 {
        PrecedesOrder(At(cells, x), At(cells, s[0]), At(cells, r[j]), ord);
        if j > 1 {
          assert r[j] == s[j - 1];
          assert !Before(cells, s[j - 1], s[0], ord);
        }
      } else {
        assert r[i] == s[i - 1] && r[j] == s[j - 1];
      }
    }
  }

  /** Placing `x` after the head of a sorted queue that it does not sort before. */
  lemma InsertLaterSorted(cells: Cells, s: seq<Coord>, x: Coord, ord: Order)
    requires OnGrid(cells, s) && InBounds(cells, x) && Sorted(cells, s, ord)
    requires |s| > 0 && !Before(cells, x, s[0], ord)
    requires Sorted(cells, Insert(cells, s[1..], x, ord), ord)
    ensures Sorted(cells, Insert(cells, s, x, ord), ord)
  {
    var rest := Insert(cells, s[1..], x, ord);
    assert Insert(cells, s, x, ord) == [s[0]] + rest;
    HeadFirst(cells, s, x, ord);
    ConsSorted(cells, s[0], rest, ord);
  }

  /** Nothing in the rest of an insertion sorts before the head that stayed in front. */
  lemma HeadFirst(cells: Cells, s: seq<Coord>, x: Coord, ord: Order)
    requires OnGrid(cells, s) && InBounds(cells, x) && Sorted(cells, s, ord)
    requires |s| > 0 && !Before(cells, x, s[0], ord)
    ensures forall y :: y in Insert(cells, s[1..], x, ord) ==> !Before(cells, y, s[0], ord)
  {
    InsertMultiset(cells, s[1..], x, ord);
    var rest := Insert(cells, s[1..], x, ord);
    forall y | y in rest
      ensures !Before(cells, y, s[0], ord)
    {
      assert y in multiset(rest);
      if y != x {
        assert y in multiset(s[1..]);
        var k :| 0 <= k < |s[1..]| && s[1..][k] == y;
        assert s[k + 1] == y;
      } else {
        PrecedesOrder(At(cells, s[0]), At(cells, x), At(cells, x), ord);
      }
    }
  }

  /** A sorted queue stays sorted behind a cell nothing in it sorts before. */
  lemma ConsSorted(cells: Cells, h: Coord, rest: seq<Coord>, ord: Order)
    requires Sorted(cells, rest, ord)
    requires forall y :: y in rest ==> !Before(cells, y, h, ord)
    ensures Sorted(cells, [h] + rest, ord)
  {
    var r := [h] + rest;
    forall i, j | 0 <= i < j < |r|
      ensures !Before(cells, r[j], r[i], ord)
    {
      assert r[j] == rest[j - 1];
      if i > 0 {
        assert r[i] == rest[i - 1];
      }
    }
  }

  /** The sort returns a sorted permutation of the queue. */
  lemma {:induction false} SortQueueSorted(cells: Cells, q: seq<Coord>, ord: Order)
    requires OnGrid(cells, q)
    ensures Sorted(cells, SortQueue(cells, q, ord), ord)
    ensures multiset(SortQueue(cells, q, ord)) == multiset(q)
    ensures OnGrid(cells, SortQueue(cells, q, ord))
  {
    if |q| > 0 {
      SortQueueSorted(cells, q[..|q| - 1], ord);
      InsertSorted(cells, SortQueue(cells, q[..|q| - 1], ord), q[|q| - 1], ord);
      InsertPermutes(cells, SortQueue(cells, q[..|q| - 1], ord), q[|q| - 1], ord);
      assert q == q[..|q| - 1] + [q[|q| - 1]];
    }
  }

  /** The sorted queue has the queue's length and the queue's cells. */
  lemma SortQueueMembers(cells: Cells, q: seq<Coord>, ord: Order)
    requires OnGrid(cells, q)
    ensures |SortQueue(cells, q, ord)| == |q|
    ensures forall x {:trigger x in SortQueue(cells, q, ord)} :: x in SortQueue(cells, q, ord) <==> x in q
  {
    var r := SortQueue(cells, q, ord);
    SortQueueSorted(cells, q, ord);
    assert |multiset(r)| == |multiset(q)|;
    forall x
      ensures x in r <==> x in q
    {
      assert x in r <==> x in multiset(r);
      assert x in q <==> x in multiset(q);
    }
  }

  /** After sorting, no cell of the queue sorts strictly before the head. */
  lemma {:induction false} SortQueueHead(cells: Cells, q: seq<Coord>, ord: Order)
    requires OnGrid(cells, q) && |q| > 0
    ensures |SortQueue(cells, q, ord)| > 0
    ensures forall y :: y in q ==> !Before(cells, y, SortQueue(cells, q, ord)[0], ord)
  {
    var r := SortQueue(cells, q, ord);
    SortQueueSorted(cells, q, ord);
    assert multiset(r) == multiset(q);
    assert |r| == |q| by {
      assert |multiset(r)| == |multiset(q)|;
    }
    forall y | y in q
      ensures !Before(cells, y, r[0], ord)
    {
      assert y in multiset(q);
      assert y in multiset(r);
      var j :| 0 <= j < |r| && r[j] == y;
      if j == 0 {
        PrecedesOrder(At(cells, y), At(cells, y), At(cells, y), ord);
      }
    }
  }

  // ---------------------------------------------------------------------
  // Stability
  // ---------------------------------------------------------------------

  /** The comparator ties `x` with `e`. */
  predicate Tied(cells: Cells, x: Coord, e: Coord, ord: Order)
  {
    !Before(cells, x, e, ord) && !Before(cells, e, x, ord)
  }

  /** The cells of `s` that tie with `e`, in their order in `s`. */
  function TiedWith(cells: Cells, s: seq<Coord>, e: Coord, ord: Order): (r: seq<Coord>)
  {
    if |s| == 0 then []
    else (if Tied(cells, s[0], e, ord) then [s[0]] else []) + TiedWith(cells, s[1..], e, ord)
  }

  lemma {:induction false} TiedWithAppend(cells: Cells, s: seq<Coord>, t: seq<Coord>, e: Coord, ord: Order)
    ensures TiedWith(cells, s + t, e, ord) == TiedWith(cells, s, e, ord) + TiedWith(cells, t, e, ord)
  {
    if |s| > 0 {
      assert (s + t)[0] == s[0];
      assert (s + t)[1..] == s[1..] + t;
      TiedWithAppend(cells, s[1..], t, e, ord);
    } else {
      assert s + t == t;
    }
  }

  lemma {:induction false} TiedWithNone(cells: Cells, s: seq<Coord>, e: Coord, ord: Order)
    requires forall i :: 0 <= i < |s| ==> !Tied(cells, s[i], e, ord)
    ensures TiedWith(cells, s, e, ord) == []
  {
    if |s| > 0 {
      TiedWithNone(cells, s[1..], e, ord);
    }
  }

  lemma {:induction false} InsertStable(cells: Cells, s: seq<Coord>, x: Coord, e: Coord, ord: Order)
    requires OnGrid(cells, s) && InBounds(cells, x) && InBounds(cells, e) && Sorted(cells, s, ord)
    ensures TiedWith(cells, Insert(cells, s, x, ord), e, ord) ==
      TiedWith(cells, s, e, ord) + (if Tied(cells, x, e, ord) then [x] else [])
  {
    if |s| == 0 {
    } else if Before(cells, x, s[0], ord) {
      assert Insert(cells, s, x, ord) == [x] + s;
      TiedWithAppend(cells, [x], s, e, ord);
      if Tied(cells, x, e, ord) {
        NoneTiedAfter(cells, s, x, e, ord);
      }
    } else {
      assert s == [s[0]] + s[1..];
      assert Insert(cells, s, x, ord) == [s[0]] + Insert(cells, s[1..], x, ord);
      SortedTail(cells, s, ord);
      InsertStable(cells, s[1..], x, e, ord);
      TiedWithAppend(cells, [s[0]], s[1..], e, ord);
      TiedWithAppend(cells, [s[0]], Insert(cells, s[1..], x, ord), e, ord);
      Reassociate(TiedWith(cells, [s[0]], e, ord), TiedWith(cells, s[1..], e, ord),
                  if Tied(cells, x, e, ord) then [x] else []);
    }
  }

  lemma Reassociate(a: seq<Coord>, b: seq<Coord>, c: seq<Coord>)
    ensures a + (b + c) == (a + b) + c
  {
  }

  lemma SortedTail(cells: Cells, s: seq<Coord>, ord: Order)
    requires OnGrid(cells, s) && Sorted(cells, s, ord) && |s| > 0
    ensures OnGrid(cells, s[1..]) && Sorted(cells, s[1..], ord)
  {
    forall i, j | 0 <= i < j < |s[1..]|
      ensures !Before(cells, s[1..][j], s[1..][i], ord)
    {
      assert s[1..][j] == s[j + 1] && s[1..][i] == s[i + 1];
    }
  }

  /** Nothing in a sorted queue ties with a cell tied to one that sorts before the whole queue. */
  lemma {:induction false} NoneTiedAfter(cells: Cells, s: seq<Coord>, x: Coord, e: Coord, ord: Order)
    requires OnGrid(cells, s) && InBounds(cells, x) && InBounds(cells, e) && Sorted(cells, s, ord)
    requires |s| > 0 && Before(cells, x, s[0], ord) && Tied(cells, x, e, ord)
    ensures TiedWith(cells, s, e, ord) == []
  {
    forall i | 0 <= i < |s|
      ensures !Tied(cells, s[i], e, ord)
    {
      if i > 0 {
        assert !Before(cells, s[i], s[0], ord);
      }
      PrecedesOrder(At(cells, x), At(cells, s[0]), At(cells, s[i]), ord);
      PrecedesOrder(At(cells, e), At(cells, x), At(cells, s[i]), ord);
    }
    TiedWithNone(cells, s, e, ord);
  }

  /**
   * The sort is stable: for every cell `e`, the cells tying with `e` appear
   * in the result in the same order as in the queue. Together with
   * `SortQueueSorted` this fixes the result completely.
   */
  lemma {:induction false} SortQueueStable(cells: Cells, q: seq<Coord>, e: Coord, ord: Order)
    requires OnGrid(cells, q) && InBounds(cells, e)
    ensures TiedWith(cells, SortQueue(cells, q, ord), e, ord) == TiedWith(cells, q, e, ord)
  {
    if |q| > 0 {
      var front, x := q[..|q| - 1], q[|q| - 1];
      assert q == front + [x];
      TiedWithAppend(cells, front, [x], e, ord);
      assert SortQueue(cells, q, ord) == Insert(cells, SortQueue(cells, front, ord), x, ord);
      SortQueueStable(cells, front, e, ord);
      SortQueueSorted(cells, front, ord);
      InsertStable(cells, SortQueue(cells, front, ord), x, e, ord);
    }
  }

  /** An already sorted queue comes back unchanged. */
  lemma {:induction false} SortQueueSortedUnchanged(cells: Cells, q: seq<Coord>, ord: Order)
    requires OnGrid(cells, q) && Sorted(cells, q, ord)
    ensures SortQueue(cells, q, ord) == q
  {
    if |q| > 0 {
      var front, x := q[..|q| - 1], q[|q| - 1];
      assert q == front + [x];
      assert Sorted(cells, front, ord) by {
        forall i, j | 0 <= i < j < |front|
          ensures !Before(cells, front[j], front[i], ord)
        {
          assert front[j] == q[j] && front[i] == q[i];
        }
      }
      SortQueueSortedUnchanged(cells, front, ord);
      assert SortQueue(cells, q, ord) == Insert(cells, front, x, ord);
      forall i | 0 <= i < |front|
        ensures !Before(cells, x, front[i], ord)
      {
        assert front[i] == q[i] && x == q[|q| - 1];
      }
      InsertAtEnd(cells, front, x, ord);
    }
  }

  lemma {:induction false} InsertAtEnd(cells: Cells, s: seq<Coord>, x: Coord, ord: Order)
    requires OnGrid(cells, s) && InBounds(cells, x)
    requires forall i :: 0 <= i < |s| ==> !Before(cells, x, s[i], ord)
    ensures Insert(cells, s, x, ord) == s + [x]
  {
    if |s| > 0 {
      InsertAtEnd(cells, s[1..], x, ord);
      assert s == [s[0]] + s[1..];
    }
  }
}
