/**
 * The dense lookup tables laid over a box of map cells: np.full((rows, cols), -1)
 * and then, for each new cell, its index in a request list written at its row
 * and column. TableHolds states what such a table holds after the pass; the
 * count of entries above 0 is what the sensor model's convergence test reads.
 */
module Tables {
  import opened Grid
  import opened Interning

  function Positive(v: int): nat { if v > 0 then 1 else 0 }

  /** The number of entries above 0 in a row, and in a table of rows. */
  function CountRow(row: seq<int>): nat
  {
    if row == [] then 0 else CountRow(row[..|row| - 1]) + Positive(row[|row| - 1])
  }

  function CountTable(t: seq<seq<int>>): nat
  {
    if t == [] then 0 else CountTable(t[..|t| - 1]) + CountRow(t[|t| - 1])
  }

  /** Overwriting one entry changes the count by what the entry leaves and what it brings. */
  lemma {:induction false} CountRowUpdate(row: seq<int>, c: nat, v: int)
    requires c < |row|
    ensures CountRow(row[c := v]) == CountRow(row) - Positive(row[c]) + Positive(v)
  {
    var last := |row| - 1;
    if c < last {
      CountRowUpdate(row[..last], c, v);
      assert row[c := v][..last] == row[..last][c := v];
    } else {
      assert row[c := v][..last] == row[..last];
    }
  }

  lemma {:induction false} CountTableUpdate(t: seq<seq<int>>, r: nat, c: nat, v: int)
    requires r < |t| && c < |t[r]|
    ensures CountTable(t[r := t[r][c := v]]) == CountTable(t) - Positive(t[r][c]) + Positive(v)
  {
    var last := |t| - 1;
    var u := t[r := t[r][c := v]];
    if r < last {
      CountTableUpdate(t[..last], r, c, v);
      assert u[..last] == t[..last][r := t[r][c := v]];
    } else {
      assert u[..last] == t[..last];
      CountRowUpdate(t[r], c, v);
    }
  }

  /** A table holding no positive entry counts 0. */
  lemma {:induction false} CountTableNonPositive(t: seq<seq<int>>)
    requires forall r, c :: 0 <= r < |t| && 0 <= c < |t[r]| ==> t[r][c] <= 0
    ensures CountTable(t) == 0
  {
    if t != [] {
      CountTableNonPositive(t[..|t| - 1]);
      CountRowNonPositive(t[|t| - 1]);
    }
  }

  lemma {:induction false} CountRowNonPositive(row: seq<int>)
    requires forall c :: 0 <= c < |row| ==> row[c] <= 0
    ensures CountRow(row) == 0
  {
    if row != [] {
      CountRowNonPositive(row[..|row| - 1]);
    }
  }

  /** The entries of a two-dimensional array as a sequence of rows. */
  function Rows(lut: array2<int>): (t: seq<seq<int>>)
    reads lut
    ensures |t| == lut.Length0
    ensures forall r :: 0 <= r < |t| ==> |t[r]| == lut.Length1
    ensures forall r, c :: 0 <= r < lut.Length0 && 0 <= c < lut.Length1 ==> t[r][c] == lut[r, c]
  {
    seq(lut.Length0, r requires 0 <= r < lut.Length0 reads lut =>
      seq(lut.Length1, c requires 0 <= c < lut.Length1 reads lut => lut[r, c]))
  }

  /** overlap_lut after the collection pass: each cell's dense request index, -1 where none. */
  ghost predicate TableHolds(box: Box, lut: array2<int>, reqs: seq<Cell>)
    reads lut
  {
    lut.Length0 == box.Rows() && lut.Length1 == box.Cols()
    && forall r, c :: 0 <= r < box.Rows() && 0 <= c < box.Cols() ==> lut[r, c] == Slot(reqs, box.CellAt(r, c))
  }

  /** A cell of the map is looked up at its own row and column, where the table holds its request index. */
  lemma {:induction false} TableLookup(box: Box, lut: array2<int>, reqs: seq<Cell>, c: Cell)
    requires TableHolds(box, lut, reqs) && box.Contains(c)
    ensures 0 <= box.Row(c) < lut.Length0 && 0 <= box.Col(c) < lut.Length1
    ensures lut[box.Row(c), box.Col(c)] == Slot(reqs, c)
  {
    PlacementRoundTrip(box, c);
  }

  /** overlap_lut[row(c), col(c)] = overlap_idxes for a new cell c: the table now holds the longer request list. */
  method Enter(box: Box, lut: array2<int>, reqs: seq<Cell>, c: Cell)
    requires TableHolds(box, lut, reqs) && box.Contains(c) && c !in reqs
    requires CountTable(Rows(lut)) == if reqs == [] then 0 else |reqs| - 1
    modifies lut
    ensures TableHolds(box, lut, reqs + [c])
    ensures CountTable(Rows(lut)) == |reqs|
  {
    var row, col := box.Row(c), box.Col(c);
    PlacementRoundTrip(box, c);
    ghost var before := Rows(lut);
    forall r, cc | 0 <= r < box.Rows() && 0 <= cc < box.Cols() && (r != row || cc != col)
      ensures lut[r, cc] == Slot(reqs + [c], box.CellAt(r, cc))
    {
      var d := box.CellAt(r, cc);
      assert d != c by {
        assert box.Row(d) == r && box.Col(d) == cc;
      }
      SlotSnoc(reqs, c, d);
    }
    lut[row, col] := |reqs|;
    SlotSnoc(reqs, c, c);
    RowsAfterWrite(lut, before, row, col);
    CountTableUpdate(before, row, col, |reqs|);
  }

  /** The rows of a table that differs from before in one entry only. */
  lemma RowsAfterWrite(lut: array2<int>, before: seq<seq<int>>, row: int, col: int)
    requires 0 <= row < lut.Length0 && 0 <= col < lut.Length1
    requires |before| == lut.Length0 && forall r :: 0 <= r < |before| ==> |before[r]| == lut.Length1
    requires forall r, c :: 0 <= r < lut.Length0 && 0 <= c < lut.Length1 && (r != row || c != col) ==>
      lut[r, c] == before[r][c]
    ensures Rows(lut) == before[row := before[row][col := lut[row, col]]]
  {
    var after := before[row := before[row][col := lut[row, col]]];
    forall r | 0 <= r < lut.Length0
      ensures Rows(lut)[r] == after[r]
    {
      assert forall c :: 0 <= c < lut.Length1 ==> Rows(lut)[r][c] == after[r][c];
    }
  }

  /**
   * One step of the first pass for a particle on cell c: when c has a volume
   * (then it lies on the map) and the table has no index for it yet, c gets
   * the next index and joins the request list.
   */
  method Visit(box: Box, known: bool, lut: array2<int>, reqs: seq<Cell>, c: Cell) returns (grown: seq<Cell>)
    requires TableHolds(box, lut, reqs) && (known ==> box.Contains(c))
    requires CountTable(Rows(lut)) == if reqs == [] then 0 else |reqs| - 1
    modifies lut
    ensures grown == if known && c !in reqs then reqs + [c] else reqs
    ensures TableHolds(box, lut, grown)
    ensures CountTable(Rows(lut)) == if grown == [] then 0 else |grown| - 1
  {
    grown := reqs;
    if known {
      TableLookup(box, lut, reqs, c);
      if lut[box.Row(c), box.Col(c)] < 0 {
        Enter(box, lut, reqs, c);
        grown := reqs + [c];
      }
    }
  }

  /** np.full((rows, cols), -1): a table in which no cell has an index yet. */
  method NewTable(box: Box) returns (lut: array2<int>)
    requires box.Rows() >= 0 && box.Cols() >= 0
    ensures fresh(lut)
    ensures TableHolds(box, lut, [])
    ensures CountTable(Rows(lut)) == 0
  {
    lut := new int[box.Rows(), box.Cols()]((r, c) => -1);
    CountTableNonPositive(Rows(lut));
  }

  /**
   * Reading a table back: an entry k >= 0 at row r, column c names the cell
   * (xMin + c, yMax - r) as the k-th of the list.
   */
  lemma {:induction false} TableInverse(box: Box, lut: array2<int>, reqs: seq<Cell>, r: int, c: int)
    requires TableHolds(box, lut, reqs) && box.InTable(r, c) && lut[r, c] >= 0
    ensures lut[r, c] < |reqs| && reqs[lut[r, c]] == Cell(box.xMin + c, box.yMax - r)
  {
  }
}
