/**
 * The text the engine shows: decimal numerals for waypoint labels and
 * coordinate labels, a node's visible label, and the algorithm menu.
 */
module Labels {
  import opened Types

  predicate IsDigit(ch: char)
  {
    '0' <= ch <= '9'
  }

  predicate AllDigits(s: string)
  {
    forall i :: 0 <= i < |s| ==> IsDigit(s[i])
  }

  function DigitChar(d: nat): (ch: char)
    requires d < 10
    ensures IsDigit(ch)
    ensures ch as int - '0' as int == d
  {
    ['0', '1', '2', '3', '4', '5', '6', '7', '8', '9'][d]
  }

  function DigitValue(ch: char): (d: nat)
    requires IsDigit(ch)
    ensures d < 10
  {
    ch as int - '0' as int
  }

  /** The decimal numeral of `n` without leading zeros, as JavaScript prints a non-negative integer. */
  function NatToString(n: nat): (s: string)
    ensures |s| > 0 && AllDigits(s)
    ensures |s| > 1 ==> s[0] != '0'
    decreases n
  {
    if n < 10 then [DigitChar(n)] else NatToString(n / 10) + [DigitChar(n % 10)]
  }

  /** Reads a numeral back. */
  function ParseNat(s: string): nat
    requires AllDigits(s)
  {
    if |s| == 0 then 0 else ParseNat(s[..|s| - 1]) * 10 + DigitValue(s[|s| - 1])
  }

  /** Printing then reading a natural number gives it back. */
  lemma {:induction false} ParseNatToString(n: nat)
    ensures ParseNat(NatToString(n)) == n
    decreases n
  {
    if n >= 10 {
      var s := NatToString(n);
      assert s[..|s| - 1] == NatToString(n / 10);
      ParseNatToString(n / 10);
    }
  }

  /** Distinct numbers have distinct numerals. */
  lemma {:induction false} NatToStringInjective(a: nat, b: nat)
    requires NatToString(a) == NatToString(b)
    ensures a == b
  {
    ParseNatToString(a);
    ParseNatToString(b);
  }

  /** JavaScript's `${i}` for an integer. */
  function IntToString(i: int): (s: string)
    ensures |s| > 0
    ensures i >= 0 ==> s == NatToString(i)
    ensures i < 0 ==> s[0] == '-' && s[1..] == NatToString(-i)
  {
    if i < 0 then "-" + NatToString(-i) else NatToString(i)
  }

  /** The label `W${idx}` of the waypoint chosen as selection `idx`. */
  function WaypointLabel(idx: nat): (s: string)
    ensures |s| >= 2 && s[0] == 'W' && s[1..] == NatToString(idx)
  {
    "W" + NatToString(idx)
  }

  /** Waypoint labels identify their selection index, and never collide with the other labels. */
  lemma WaypointLabelDistinct(a: nat, b: nat)
    ensures WaypointLabel(a) == WaypointLabel(b) <==> a == b
    ensures WaypointLabel(a) != "" && WaypointLabel(a) != "G" && WaypointLabel(a) != "P"
  {
    if WaypointLabel(a) == WaypointLabel(b) {
      assert NatToString(a) == WaypointLabel(a)[1..] == WaypointLabel(b)[1..] == NatToString(b);
      NatToStringInjective(a, b);
    }
  }

  /** The coordinate label `${col},${row}`. */
  function CoordLabel(col: int, row: int): (s: string)
  {
    IntToString(col) + "," + IntToString(row)
  }

  /** What a cell shows: its coordinates when they are switched on, otherwise its role label. */
  function NodeLabel(node: Node, showCoords: bool): (s: string)
    ensures showCoords ==> s == CoordLabel(node.col, node.row)
    ensures !showCoords ==> s == node.baseLabel
  {
    if showCoords then CoordLabel(node.col, node.row) else node.baseLabel
  }

  /** JavaScript's `${i}` of two integers differ whenever the integers do. */
  lemma IntToStringInjective(a: int, b: int)
    requires IntToString(a) == IntToString(b)
    ensures a == b
  {
    if a < 0 && b < 0 {
      NatToStringInjective(-a, -b);
    } else if a >= 0 && b >= 0 {
      NatToStringInjective(a, b);
    }
  }

  /** An integer's numeral has no comma in it. */
  lemma IntToStringNoComma(i: int)
    ensures forall k :: 0 <= k < |IntToString(i)| ==> IntToString(i)[k] != ','
  {
    var s := IntToString(i);
    var d := if i < 0 then NatToString(-i) else NatToString(i);
    forall k | 0 <= k < |s|
      ensures s[k] != ','
    {
      if i < 0 && k > 0 {
        assert s[k] == d[k - 1];
      }
    }
  }

  /** The first comma of a string without commas followed by a comma is right after it. */
  lemma CommaAfter(d: string, rest: string)
    requires forall k :: 0 <= k < |d| ==> d[k] != ','
    ensures forall k :: 0 <= k < |d| ==> (d + "," + rest)[k] != ','
    ensures (d + "," + rest)[|d|] == ','
  {
  }

  /** Coordinate labels tell cells apart: the label `col,row` determines both coordinates. */
  lemma CoordLabelInjective(c1: int, r1: int, c2: int, r2: int)
    requires CoordLabel(c1, r1) == CoordLabel(c2, r2)
    ensures c1 == c2 && r1 == r2
  {
    var a1, b1 := IntToString(c1), IntToString(r1);
    var a2, b2 := IntToString(c2), IntToString(r2);
    var s := CoordLabel(c1, r1);
    assert s == a1 + "," + b1 && s == a2 + "," + b2;
    IntToStringNoComma(c1);
    IntToStringNoComma(c2);
    CommaAfter(a1, b1);
    CommaAfter(a2, b2);
    assert |a1| == |a2|;
    assert a1 == s[..|a1|] == a2;
    assert b1 == s[|a1| + 1..] == b2;
    IntToStringInjective(c1, c2);
    IntToStringInjective(r1, r2);
  }

  /** The labels the markers give a cell: none, the goal's, a path cell's, or a waypoint's. */
  ghost predicate RoleLabel(s: string)
  {
    s == "" || s == "G" || s == "P" || exists k: nat :: s == WaypointLabel(k)
  }

  /** The display name of each algorithm. */
  function AlgorithmName(a: AlgorithmId): string
  {
    match a
    case Bfs => "Breadth-First Search"
    case Dfs => "Depth-First Search"
    case Dijkstra => "Dijkstra"
    case AStar => "A* Search"
  }

  datatype AlgorithmOption = AlgorithmOption(value: AlgorithmId, text: string)

  /** The algorithm menu, in declaration order, each entry labelled with its name. */
  function AlgorithmOptions(): (opts: seq<AlgorithmOption>)
    ensures |opts| == 4
    ensures opts[0].value == Bfs && opts[1].value == Dfs && opts[2].value == Dijkstra && opts[3].value == AStar
    ensures forall i :: 0 <= i < |opts| ==> opts[i].text == AlgorithmName(opts[i].value)
    ensures forall a: AlgorithmId :: AlgorithmOption(a, AlgorithmName(a)) in opts
    ensures forall i, j :: 0 <= i < j < |opts| ==> opts[i].value != opts[j].value
  {
    [ AlgorithmOption(Bfs, AlgorithmName(Bfs)),
      AlgorithmOption(Dfs, AlgorithmName(Dfs)),
      AlgorithmOption(Dijkstra, AlgorithmName(Dijkstra)),
      AlgorithmOption(AStar, AlgorithmName(AStar)) ]
  }
}
