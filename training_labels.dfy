/**
 * Conversion of the raw overlap ground truth into the network's training
 * format. Every raw row [frame, x, y, overlap] is placed on a grid cell; the
 * cells get dense reference indices 0..k-1 in order of first appearance through
 * a renaming table laid over the cells' bounding box, and each row's frame
 * heading becomes one of the 360 yaw classes.
 */
module TrainingLabels {
  import opened Grid
  import opened Interning
  import opened Tables
  import opened Particles

  /** One raw ground-truth row: the query frame, a map position in metres and the overlap. */
  datatype LabelRow = LabelRow(frame: real, x: real, y: real, overlap: real)

  /** int() on a float: truncation toward zero. */
  function Trunc(r: real): (n: int)
    ensures r >= 0.0 ==> n as real <= r < n as real + 1.0
    ensures r < 0.0 ==> n as real - 1.0 < r <= n as real
  {
    if r >= 0.0 then r.Floor else -((-r).Floor)
  }

  /** The grid cell of a row: both coordinates divided by the resolution and rounded. */
  function GridCell(row: LabelRow, res: real): Cell
    requires res != 0.0
  {
    Cell(Round(row.x / res), Round(row.y / res))
  }

  function Cells(rows: seq<LabelRow>, res: real): (cs: seq<Cell>)
    requires res != 0.0
    ensures |cs| == |rows|
    ensures forall i :: 0 <= i < |rows| ==> cs[i] == GridCell(rows[i], res)
  {
    seq(|rows|, i requires 0 <= i < |rows| => GridCell(rows[i], res))
  }

  function Xs(rows: seq<LabelRow>): (xs: seq<real>)
    ensures |xs| == |rows| && forall i :: 0 <= i < |rows| ==> xs[i] == rows[i].x
  {
    seq(|rows|, i requires 0 <= i < |rows| => rows[i].x)
  }

  function Ys(rows: seq<LabelRow>): (ys: seq<real>)
    ensures |ys| == |rows| && forall i :: 0 <= i < |rows| ==> ys[i] == rows[i].y
  {
    seq(|rows|, i requires 0 <= i < |rows| => rows[i].y)
  }

  /** The renaming table's box: the rounded min and max of each coordinate column over the resolution. */
  function LabelBox(rows: seq<LabelRow>, res: real): Box
    requires |rows| > 0 && res != 0.0
  {
    Box(Round(SeqMin(Xs(rows)) / res), Round(SeqMax(Xs(rows)) / res),
        Round(SeqMin(Ys(rows)) / res), Round(SeqMax(Ys(rows)) / res))
  }

  /**
   * How convert_training_labels ends: np.max of an empty column raises, a zero
   * resolution makes round() meet an infinity or a NaN, and a box whose size is
   * below one in either direction makes np.full (negative size) or the first
   * table access (size zero) raise.
   */
  datatype Conversion = Converted | NoRows | ZeroResolution | InvertedBox

  function LabelOutcome(rows: seq<LabelRow>, res: real): Conversion
  {
    if |rows| == 0 then NoRows
    else if res == 0.0 then ZeroResolution
    else if !LabelBox(rows, res).WellFormed() then InvertedBox
    else Converted
  }

  /** Every row's cell lies in a well-formed box, so every table access is in range. */
  lemma {:induction false} CellsInBox(rows: seq<LabelRow>, res: real, i: int)
    requires |rows| > 0 && res != 0.0 && 0 <= i < |rows| && LabelBox(rows, res).WellFormed()
    ensures LabelBox(rows, res).Contains(GridCell(rows[i], res))
  {
    if res > 0.0 {
      RoundedBounds(Xs(rows), res, i);
      RoundedBounds(Ys(rows), res, i);
    } else {
      RoundedBoundsNegative(Xs(rows), res, i);
      RoundedBoundsNegative(Ys(rows), res, i);
    }
  }

  /** All rows share one cell: the only way a negative resolution yields a usable box. */
  predicate OneCell(rows: seq<LabelRow>, res: real)
    requires |rows| > 0 && res != 0.0
  {
    forall i :: 0 <= i < |rows| ==> GridCell(rows[i], res) == GridCell(rows[0], res)
  }

  /**
   * Which inputs convert: non-empty rows with a positive resolution always do;
   * with a negative one the box comes out inverted unless every row falls on
   * the same cell.
   */
  lemma {:induction false} LabelOutcomeCases(rows: seq<LabelRow>, res: real)
    ensures LabelOutcome(rows, res) == NoRows <==> |rows| == 0
    ensures LabelOutcome(rows, res) == ZeroResolution <==> |rows| > 0 && res == 0.0
    ensures |rows| > 0 && res > 0.0 ==> LabelOutcome(rows, res) == Converted
    ensures |rows| > 0 && res < 0.0 ==> (LabelOutcome(rows, res) == Converted <==> OneCell(rows, res))
  {
    if |rows| > 0 && res > 0.0 {
      RoundedBounds(Xs(rows), res, 0);
      RoundedBounds(Ys(rows), res, 0);
    }
    if |rows| > 0 && res < 0.0 {
      var box := LabelBox(rows, res);
      if box.WellFormed() {
        forall i | 0 <= i < |rows|
          ensures GridCell(rows[i], res) == GridCell(rows[0], res)
        {
          RoundedBoundsNegative(Xs(rows), res, i);
          RoundedBoundsNegative(Ys(rows), res, i);
          RoundedBoundsNegative(Xs(rows), res, 0);
          RoundedBoundsNegative(Ys(rows), res, 0);
        }
      }
      if OneCell(rows, res) {
        var lx :| 0 <= lx < |rows| && Xs(rows)[lx] == SeqMin(Xs(rows));
        var hx :| 0 <= hx < |rows| && Xs(rows)[hx] == SeqMax(Xs(rows));
        var ly :| 0 <= ly < |rows| && Ys(rows)[ly] == SeqMin(Ys(rows));
        var hy :| 0 <= hy < |rows| && Ys(rows)[hy] == SeqMax(Ys(rows));
        assert GridCell(rows[lx], res) == GridCell(rows[hx], res);
        assert GridCell(rows[ly], res) == GridCell(rows[hy], res);
      }
    }
  }

  /**
   * int(-(yaw / pi) * 360 // 2 + 360 // 2): the heading as one of the network's
   * 360 yaw classes (floor division of a float, then an exact conversion).
   */
  function YawIndex(yaw: real): int
  {
    ((-(yaw / Pi) * 360.0) / 2.0).Floor + 180
  }

  /** Heading 0 is class 180, and a larger heading never gets a larger class. */
  lemma {:induction false} YawIndexMonotone(a: real, b: real)
    requires a <= b
    ensures YawIndex(0.0) == 180
    ensures YawIndex(b) <= YawIndex(a)
  {
    var u := (-(a / Pi) * 360.0) / 2.0;
    var v := (-(b / Pi) * 360.0) / 2.0;
    DivMonotone(a, b, Pi);
    assert v <= u;
    assert v.Floor as real <= v <= u;
  }

  /** Headings in [-pi, pi] give classes in [0, 360]. */
  lemma {:induction false} YawIndexRange(yaw: real)
    requires -Pi <= yaw <= Pi
    ensures 0 <= YawIndex(yaw) <= 360
  {
    YawIndexMonotone(-Pi, yaw);
    YawIndexMonotone(yaw, Pi);
    assert (-(-Pi / Pi) * 360.0) / 2.0 == 180.0;
    assert (-(Pi / Pi) * 360.0) / 2.0 == -180.0;
  }

  /** The reference index of every row: the position of its cell among the distinct cells, first appearance first. */
  function ReferenceIndex(rows: seq<LabelRow>, res: real, i: int): int
    requires res != 0.0 && 0 <= i < |rows|
  {
    Slot(Distinct(Cells(rows, res)), Cells(rows, res)[i])
  }

  /**
   * The reference indices are dense: each lies in 0..k-1 for the k distinct
   * cells, two rows share one iff they share a cell, a cell met for the first
   * time gets the number of cells met before it, and a later row reuses it.
   */
  lemma {:induction false} ReferenceIndicesDense(rows: seq<LabelRow>, res: real, i: int, j: int)
    requires res != 0.0 && 0 <= i < |rows| && 0 <= j < |rows|
    ensures var cs := Cells(rows, res);
      && 0 <= ReferenceIndex(rows, res, i) < |Distinct(cs)|
      && (ReferenceIndex(rows, res, i) == ReferenceIndex(rows, res, j) <==> cs[i] == cs[j])
      && (cs[i] !in cs[..i] ==> ReferenceIndex(rows, res, i) == |Distinct(cs[..i])|)
      && (cs[i] in cs[..i] ==> ReferenceIndex(rows, res, i) == Slot(Distinct(cs[..i]), cs[i]))
  {
    var cs := Cells(rows, res);
    DenseIndices(cs, i, j);
    IndexOnArrival(cs, i);
  }

  /**
   * convert_training_labels: the renaming table, the reference index and yaw
   * class of every row, and the output table [frame, reference index, overlap,
   * yaw class, x, y] filled column by column. The frame heading comes from the
   * pose of frame int(row.frame).
   */
  method ConvertTrainingLabels(rows: seq<LabelRow>, yawOf: int -> real, res: real)
    returns (outcome: Conversion, table: array2<real>, lut: array2<int>, refs: seq<int>, yaws: seq<int>)
    ensures fresh(table) && fresh(lut)
    ensures outcome == LabelOutcome(rows, res)
    ensures outcome != Converted ==> table.Length0 == 0 && lut.Length0 == 0 && refs == [] && yaws == []
    ensures outcome == Converted ==>
      && TableHolds(LabelBox(rows, res), lut, Distinct(Cells(rows, res)))
      && refs == DenseIndex(Cells(rows, res))
      && yaws == YawClasses(rows, yawOf)
      && table.Length0 == |rows| && table.Length1 == 6
      && forall i :: 0 <= i < |rows| ==>
        && table[i, 0] == rows[i].frame && table[i, 1] == refs[i] as real && table[i, 2] == rows[i].overlap
        && table[i, 3] == yaws[i] as real && table[i, 4] == rows[i].x && table[i, 5] == rows[i].y
  {
    outcome := LabelOutcome(rows, res);
    if outcome != Converted {
      table := new real[0, 6];
      lut := new int[0, 0];
      refs, yaws := [], [];
      return;
    }
    var box := LabelBox(rows, res);
    AllCellsInBox(rows, res);
    lut, refs, yaws := RenamePass(box, rows, yawOf, res);
    table := OutputTable(rows, refs, yaws);
  }

  /**
   * The loop over the rows: round the row to its cell, reuse the cell's entry
   * or hand out the next index, and compute the row's yaw class.
   */
  method RenamePass(box: Box, rows: seq<LabelRow>, yawOf: int -> real, res: real)
    returns (lut: array2<int>, refs: seq<int>, yaws: seq<int>)
    requires res != 0.0 && box.WellFormed()
    requires forall i :: 0 <= i < |rows| ==> box.Contains(Cells(rows, res)[i])
    ensures fresh(lut)
    ensures TableHolds(box, lut, Distinct(Cells(rows, res)))
    ensures refs == DenseIndex(Cells(rows, res))
    ensures yaws == YawClasses(rows, yawOf)
  {
    ghost var cells := Cells(rows, res);
    ghost var classes := YawClasses(rows, yawOf);
    lut := NewTable(box);
    var reqs: seq<Cell> := [];
    refs, yaws := [], [];
    for i := 0 to |rows|
      invariant reqs == Distinct(cells[..i])
      invariant TableHolds(box, lut, reqs)
      invariant CountTable(Rows(lut)) == if reqs == [] then 0 else |reqs| - 1
      invariant refs == DenseIndex(cells[..i])
      invariant yaws == classes[..i]
    {
      var c := GridCell(rows[i], res);
      assert c == cells[i];
      PrefixSnoc(cells, i);
      var ref;
      ref, reqs := Rename(box, lut, cells[..i], reqs, c);
      refs := refs + [ref];
      yaws := yaws + [YawIndex(yawOf(Trunc(rows[i].frame)))];
      PrefixSnoc(classes, i);
    }
    assert cells[..|rows|] == cells;
    assert classes[..|rows|] == classes;
  }

  /** The yaw class of every row, from the heading of its frame's pose. */
  function YawClasses(rows: seq<LabelRow>, yawOf: int -> real): (ys: seq<int>)
    ensures |ys| == |rows| && forall i :: 0 <= i < |rows| ==> ys[i] == YawIndex(yawOf(Trunc(rows[i].frame)))
  {
    seq(|rows|, i requires 0 <= i < |rows| => YawIndex(yawOf(Trunc(rows[i].frame))))
  }

  /** Rows whose frames have headings in [-pi, pi] get yaw classes in 0..360, the range of the network's output. */
  lemma {:induction false} YawClassesRange(rows: seq<LabelRow>, yawOf: int -> real)
    requires forall i :: 0 <= i < |rows| ==> -Pi <= yawOf(Trunc(rows[i].frame)) <= Pi
    ensures forall i :: 0 <= i < |rows| ==> 0 <= YawClasses(rows, yawOf)[i] <= 360
  {
    forall i | 0 <= i < |rows|
      ensures 0 <= YawClasses(rows, yawOf)[i] <= 360
    {
      YawIndexRange(yawOf(Trunc(rows[i].frame)));
    }
  }

  lemma {:induction false} AllCellsInBox(rows: seq<LabelRow>, res: real)
    requires LabelOutcome(rows, res) == Converted
    ensures |rows| > 0 && res != 0.0 && LabelBox(rows, res).WellFormed()
    ensures forall i :: 0 <= i < |rows| ==> LabelBox(rows, res).Contains(Cells(rows, res)[i])
  {
    forall i | 0 <= i < |rows|
      ensures LabelBox(rows, res).Contains(Cells(rows, res)[i])
    {
      CellsInBox(rows, res, i);
    }
  }

  /**
   * One row of the renaming pass: a cell whose entry is already >= 0 reuses it;
   * otherwise it gets the next index (the count of cells so far) and joins the
   * list. Either way the index handed out is the one DenseIndex assigns to the
   * row after the cells seen so far.
   */
  method Rename(box: Box, lut: array2<int>, ghost seen: seq<Cell>, reqs: seq<Cell>, c: Cell)
    returns (ref: int, grown: seq<Cell>)
    requires reqs == Distinct(seen)
    requires TableHolds(box, lut, reqs) && box.Contains(c)
    requires CountTable(Rows(lut)) == if reqs == [] then 0 else |reqs| - 1
    modifies lut
    ensures grown == Distinct(seen + [c]) == if c in reqs then reqs else reqs + [c]
    ensures ref == Slot(grown, c)
    ensures DenseIndex(seen + [c]) == DenseIndex(seen) + [ref]
    ensures TableHolds(box, lut, grown)
    ensures CountTable(Rows(lut)) == if grown == [] then 0 else |grown| - 1
  {
    DistinctSnoc(seen, c);
    DistinctMembers(seen, c);
    DenseIndexSnoc(seen, c);
    TableLookup(box, lut, reqs, c);
    if lut[box.Row(c), box.Col(c)] >= 0 {
      ref := lut[box.Row(c), box.Col(c)];
      grown := reqs;
    } else {
      ref := |reqs|;
      Enter(box, lut, reqs, c);
      grown := reqs + [c];
      SlotSnoc(reqs, c, c);
    }
  }

  /** The output table's columns: frame, reference index, overlap, yaw class, x, y. */
  function Column(row: LabelRow, ref: int, yaw: int, j: int): real
  {
    match j
    case 0 => row.frame
    case 1 => ref as real
    case 2 => row.overlap
    case 3 => yaw as real
    case 4 => row.x
    case _ => row.y
  }

  /** The output table: np.zeros((n, 6)) and then every column set from the rows and the two computed lists. */
  method OutputTable(rows: seq<LabelRow>, refs: seq<int>, yaws: seq<int>) returns (table: array2<real>)
    requires |refs| == |rows| && |yaws| == |rows|
    ensures fresh(table)
    ensures table.Length0 == |rows| && table.Length1 == 6
    ensures forall i :: 0 <= i < |rows| ==> table[i, 0] == rows[i].frame
    ensures forall i :: 0 <= i < |rows| ==> table[i, 1] == refs[i] as real
    ensures forall i :: 0 <= i < |rows| ==> table[i, 2] == rows[i].overlap
    ensures forall i :: 0 <= i < |rows| ==> table[i, 3] == yaws[i] as real
    ensures forall i :: 0 <= i < |rows| ==> table[i, 4] == rows[i].x
    ensures forall i :: 0 <= i < |rows| ==> table[i, 5] == rows[i].y
  {
    var n := |rows|;
    table := new real[n, 6]((i, j) => 0.0);
    forall i, j | 0 <= i < n && 0 <= j < 6 {
      table[i, j] := Column(rows[i], refs[i], yaws[i], j);
    }
  }

  /**
   * The renaming table read back as convert_training_data does: the cell at
   * (x_min + column, y_max - row) of a non-negative entry k is the cell whose
   * rows carry reference index k.
   */
  lemma {:induction false} RenamingInverse(rows: seq<LabelRow>, res: real, lut: array2<int>, i: int)
    requires LabelOutcome(rows, res) == Converted && 0 <= i < |rows|
    requires TableHolds(LabelBox(rows, res), lut, Distinct(Cells(rows, res)))
    ensures var box := LabelBox(rows, res);
      var c := GridCell(rows[i], res);
      && box.InTable(box.Row(c), box.Col(c))
      && lut[box.Row(c), box.Col(c)] == ReferenceIndex(rows, res, i)
      && Cell(box.xMin + box.Col(c), box.yMax - box.Row(c)) == c
  {
    var box := LabelBox(rows, res);
    var c := GridCell(rows[i], res);
    CellsInBox(rows, res, i);
    TableLookup(box, lut, Distinct(Cells(rows, res)), c);
    PlacementRoundTrip(box, c);
  }
}
