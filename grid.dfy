/**
 * Integer map cells, Python's rounding and slice ends, and the dense lookup
 * tables that the localisation code lays over a bounding box of cells.
 */
module Grid {

  /** Python's round() on a float: the nearest integer, ties go to the even neighbour. */
  function Round(r: real): (n: int)
    ensures -(0.5) <= n as real - r <= 0.5
    ensures (n as real - r == 0.5 || r - n as real == 0.5) ==> n % 2 == 0
  {
    var f := r.Floor;
    var d := r - f as real;
    if d < 0.5 then f
    else if d > 0.5 then f + 1
    else if f % 2 == 0 then f else f + 1
  }

  /** Rounding is monotone: the reason every table lookup below stays in range. */
  lemma RoundMonotone(a: real, b: real)
    requires a <= b
    ensures Round(a) <= Round(b)
  {
  }

  lemma RoundOfInteger(n: int)
    ensures Round(n as real) == n
  {
  }

  /** The end of Python's slice xs[:m] on a sequence of length n (a negative m counts from the end). */
  function SliceEnd(m: int, n: nat): (e: nat)
    ensures e <= n
  {
    if m >= 0 then (if m <= n then m else n)
    else if n + m >= 0 then n + m else 0
  }

  /** A map cell in grid units (metres divided by the grid resolution). */
  datatype Cell = Cell(x: int, y: int)

  /**
   * The bounding box [xMin, xMax] x [yMin, yMax] of a map, and the table laid
   * over it: cell (x, y) lives at row yMax - y, column x - xMin, so north is up.
   */
  datatype Box = Box(xMin: int, xMax: int, yMin: int, yMax: int)
  {
    predicate WellFormed() { xMin <= xMax && yMin <= yMax }

    function Rows(): int { yMax - yMin + 1 }

    function Cols(): int { xMax - xMin + 1 }

    predicate Contains(c: Cell) { xMin <= c.x <= xMax && yMin <= c.y <= yMax }

    function Row(c: Cell): int { yMax - c.y }

    function Col(c: Cell): int { c.x - xMin }

    /** The inverse placement: the cell stored at a table position. */
    function CellAt(row: int, col: int): (c: Cell)
      ensures Row(c) == row && Col(c) == col
    {
      Cell(xMin + col, yMax - row)
    }

    predicate InTable(row: int, col: int) { 0 <= row < Rows() && 0 <= col < Cols() }
  }

  /** Placing a cell and reading it back are inverse, and a cell is in the box iff its slot is in the table. */
  lemma PlacementRoundTrip(b: Box, c: Cell)
    ensures b.CellAt(b.Row(c), b.Col(c)) == c
    ensures b.Contains(c) <==> b.InTable(b.Row(c), b.Col(c))
  {
  }

  /** A point whose rounded coordinates lie between two rounded bounds. */
  lemma RoundBetween(lo: real, v: real, hi: real)
    requires lo <= v <= hi
    ensures Round(lo) <= Round(v) <= Round(hi)
  {
    RoundMonotone(lo, v);
    RoundMonotone(v, hi);
  }

  /** np.max of a non-empty column. */
  function SeqMax(s: seq<real>): (m: real)
    requires |s| > 0
    ensures forall i :: 0 <= i < |s| ==> s[i] <= m
    ensures exists i :: 0 <= i < |s| && s[i] == m
  {
    if |s| == 1 then s[0]
    else
      var rest := SeqMax(s[1..]);
      assert forall i :: 1 <= i < |s| ==> s[i] == s[1..][i - 1];
      if s[0] > rest then s[0] else rest
  }

  /** np.min of a non-empty column. */
  function SeqMin(s: seq<real>): (m: real)
    requires |s| > 0
    ensures forall i :: 0 <= i < |s| ==> m <= s[i]
    ensures exists i :: 0 <= i < |s| && s[i] == m
  {
    if |s| == 1 then s[0]
    else
      var rest := SeqMin(s[1..]);
      assert forall i :: 1 <= i < |s| ==> s[i] == s[1..][i - 1];
      if s[0] < rest then s[0] else rest
  }

  /** Dividing by a positive resolution keeps the order. */
  lemma {:induction false} DivMonotone(a: real, b: real, d: real)
    requires a <= b && d > 0.0
    ensures a / d <= b / d
  {
    assert b / d - a / d == (b - a) / d;
  }

  /** Dividing by a negative resolution reverses the order. */
  lemma {:induction false} DivAntitone(a: real, b: real, d: real)
    requires a <= b && d < 0.0
    ensures b / d <= a / d
  {
    assert a / d - b / d == (b - a) / -d;
  }

  /** Rounded bounds from the min and max of a column hold every rounded entry of it. */
  lemma {:induction false} RoundedBounds(s: seq<real>, d: real, i: int)
    requires 0 <= i < |s| && d > 0.0
    ensures Round(SeqMin(s) / d) <= Round(s[i] / d) <= Round(SeqMax(s) / d)
  {
    DivMonotone(SeqMin(s), s[i], d);
    DivMonotone(s[i], SeqMax(s), d);
    RoundBetween(SeqMin(s) / d, s[i] / d, SeqMax(s) / d);
  }

  /** With a negative divisor the max of the column gives the lower rounded bound and the min the upper. */
  lemma {:induction false} RoundedBoundsNegative(s: seq<real>, d: real, i: int)
    requires 0 <= i < |s| && d < 0.0
    ensures Round(SeqMax(s) / d) <= Round(s[i] / d) <= Round(SeqMin(s) / d)
  {
    DivAntitone(SeqMin(s), s[i], d);
    DivAntitone(s[i], SeqMax(s), d);
    RoundBetween(SeqMax(s) / d, s[i] / d, SeqMin(s) / d);
  }
}
