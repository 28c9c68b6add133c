/**
 * Rasterisation of the map into grid cells for virtual scan generation: every
 * pose of the trajectory is widened by a square of local offsets, each offset
 * position is snapped to the grid, and every cell of the lookup table that is met
 * for the first time gets one virtual scan, unless its file already exists.
 *
 * The point cloud work (cropping the map, rendering the range image, writing the
 * file) is not modelled: a generated scan is recorded as the cell, its centre,
 * the pose height and the file name it is saved under, and the folder is the set
 * of file names in it.
 */
module VirtualScans {
  import opened Wrappers
  import opened Grid
  import opened Names
  import opened Interning

  /** The translation of one ground-truth pose, poses[i, :3, 3], in metres. */
  datatype Position = Position(x: real, y: real, z: real)

  /** One local grid coordinate [x_coord, y_coord], in metres. */
  datatype Offset = Offset(dx: real, dy: real)

  /**
   * One call of gen_grid: the cell, the pose height and the file name. The scan is
   * taken at the cell's centre, x_global = cell.x * grid_res and y_global = cell.y * grid_res.
   */
  datatype Scan = Scan(cell: Cell, z: real, name: string)

  /** Why rasterize_map raises before the frame loop. */
  datatype RasterError =
    | NoPoses          // np.min of an empty coordinate column
    | ZeroResolution   // the bounds divided by grid_res are inf or nan, which int() rejects
    | NegativeSize     // np.full with a negative table dimension

  /** The state of a run: the cells marked 1 in grid_map_lut, the folder's file names, the scans generated so far. */
  datatype Raster = Raster(marked: set<Cell>, folder: set<string>, scans: seq<Scan>)

  function Xs(ps: seq<Position>): (xs: seq<real>)
    ensures |xs| == |ps| && forall i :: 0 <= i < |ps| ==> xs[i] == ps[i].x
  {
    seq(|ps|, i requires 0 <= i < |ps| => ps[i].x)
  }

  function Ys(ps: seq<Position>): (ys: seq<real>)
    ensures |ys| == |ps| && forall i :: 0 <= i < |ps| ==> ys[i] == ps[i].y
  {
    seq(|ps|, i requires 0 <= i < |ps| => ps[i].y)
  }

  /** min_x, max_x, min_y, max_y: the extent of the poses widened by offset, divided by grid_res and rounded. */
  function TableBox(ps: seq<Position>, offset: real, res: real): Box
    requires |ps| > 0 && res != 0.0
  {
    Box(Round((SeqMin(Xs(ps)) - offset) / res), Round((SeqMax(Xs(ps)) + offset) / res),
        Round((SeqMin(Ys(ps)) - offset) / res), Round((SeqMax(Ys(ps)) + offset) / res))
  }

  // ---------------------------------------------------------------- local offsets

  /** The smallest integer not below r. */
  function Ceil(r: real): (n: int)
    ensures r <= n as real < r + 1.0
  {
    -((-r).Floor)
  }

  /** The length of np.arange(lo, hi, step): ceil((hi - lo) / step), or 0 when that is not positive. */
  function ArangeCount(lo: real, hi: real, step: real): nat
    requires step != 0.0
  {
    var c := Ceil((hi - lo) / step);
    if c > 0 then c else 0
  }

  /** np.arange(lo, hi, step) on exact reals: lo, lo + step, lo + 2 step, ... */
  function Arange(lo: real, hi: real, step: real): seq<real>
    requires step != 0.0
  {
    seq(ArangeCount(lo, hi, step), k => lo + k as real * step)
  }

  /** The local coordinate values np.arange(-offset, offset + grid_res, grid_res). */
  function OffsetValues(offset: real, res: real): seq<real>
    requires res != 0.0
  {
    Arange(-offset, offset + res, res)
  }

  /** The pairs [x, y] for one x and every y, in order. */
  function OffsetRow(x: real, ys: seq<real>): seq<Offset>
  {
    seq(|ys|, j requires 0 <= j < |ys| => Offset(x, ys[j]))
  }

  /** The pairs of the nested loop: for each x in order, every y in order. */
  function Pairs(xs: seq<real>, ys: seq<real>): seq<Offset>
    decreases |xs|
  {
    if xs == [] then [] else Pairs(xs[..|xs| - 1], ys) + OffsetRow(xs[|xs| - 1], ys)
  }

  /** With a positive step every value lies in [lo, hi), starts at lo and is one step above the one before. */
  lemma {:induction false} ArangeBounds(lo: real, hi: real, step: real)
    requires step > 0.0
    ensures var v := Arange(lo, hi, step);
      && (|v| > 0 <==> lo < hi)
      && (|v| > 0 ==> v[0] == lo)
      && (forall k :: 0 < k < |v| ==> v[k] == v[k - 1] + step)
      && (forall k :: 0 <= k < |v| ==> lo <= v[k] < hi)
  {
    var v := Arange(lo, hi, step);
    var q := (hi - lo) / step;
    assert q * step == hi - lo;
    forall k | 0 <= k < |v|
      ensures lo <= v[k] < hi
    {
      assert (k as real) < q;
      assert k as real * step < q * step;
    }
    if lo < hi {
      assert q > 0.0;
    }
  }

  /** When offset is n grid steps, the local values are exactly -offset, ..., offset: 2n + 1 of them. */
  lemma {:induction false} OffsetValuesSymmetric(n: nat, res: real)
    requires res > 0.0
    ensures var v := OffsetValues(n as real * res, res);
      |v| == 2 * n + 1 && v[0] == -(n as real * res) && v[2 * n] == n as real * res
  {
    var offset := n as real * res;
    var d := (offset + res - -offset) / res;
    assert offset + res - -offset == (2 * n + 1) as real * res;
    assert d == (2 * n + 1) as real;
  }

  /** The nested loop meets exactly the pairs whose x is a local value and whose y is one. */
  lemma {:induction false} PairsMembers(xs: seq<real>, ys: seq<real>, o: Offset)
    ensures o in Pairs(xs, ys) <==> o.dx in xs && o.dy in ys
    decreases |xs|
  {
    if xs != [] {
      var init := xs[..|xs| - 1];
      PairsMembers(init, ys, o);
      assert xs == init + [xs[|xs| - 1]];
      assert o in OffsetRow(xs[|xs| - 1], ys) <==> o.dx == xs[|xs| - 1] && o.dy in ys by {
        if o.dx == xs[|xs| - 1] && o.dy in ys {
          var j :| 0 <= j < |ys| && ys[j] == o.dy;
          assert OffsetRow(xs[|xs| - 1], ys)[j] == o;
        }
      }
    }
  }

  /** The nested loop has |xs| * |ys| pairs. */
  lemma {:induction false} PairsCount(xs: seq<real>, ys: seq<real>)
    ensures |Pairs(xs, ys)| == |xs| * |ys|
    decreases |xs|
  {
    if xs != [] {
      PairsCount(xs[..|xs| - 1], ys);
      assert |xs| * |ys| == (|xs| - 1) * |ys| + |ys|;
    }
  }

  /** The local coordinates loop: for each x value, for each y value, append [x, y]. */
  method LocalOffsets(offset: real, res: real) returns (locs: seq<Offset>)
    requires res != 0.0
    ensures locs == Pairs(OffsetValues(offset, res), OffsetValues(offset, res))
  {
    var v := Arange(-offset, offset + res, res);
    locs := [];
    for i := 0 to |v|
      invariant locs == Pairs(v[..i], v)
    {
      for j := 0 to |v|
        invariant locs == Pairs(v[..i], v) + OffsetRow(v[i], v[..j])
      {
        locs := locs + [Offset(v[i], v[j])];
        assert OffsetRow(v[i], v[..j + 1]) == OffsetRow(v[i], v[..j]) + [Offset(v[i], v[j])];
      }
      assert v[..i + 1][..i] == v[..i];
      assert v[..|v|] == v;
    }
    assert v[..|v|] == v;
  }

  // ---------------------------------------------------------------- one run

  /** round((x + dx) / grid_res), round((y + dy) / grid_res): the cell a local offset of a pose lands on. */
  function Snap(p: Position, o: Offset, res: real): Cell
    requires res != 0.0
  {
    Cell(Round((p.x + o.dx) / res), Round((p.y + o.dy) / res))
  }

  /** The file names of cells at a grid resolution, as a function value. */
  function Namer(res: real): Cell -> string
  {
    c => CellName(c, res)
  }

  /** What the inner loop body computes for pose p and local offset o: the cell, the height and the file name. */
  function CandidateOf(p: Position, o: Offset, res: real, name: Cell -> string): Scan
    requires res != 0.0
  {
    var c := Snap(p, o, res);
    Scan(c, p.z, name(c))
  }

  /** The inner loop body's computation as a function value, for a given naming of cells. */
  function Placer(res: real, name: Cell -> string): (Position, Offset) -> Scan
    requires res != 0.0
  {
    (p: Position, o: Offset) => CandidateOf(p, o, res, name)
  }

  /** name gives every cell its file name at resolution res. */
  ghost predicate NamesCells(name: Cell -> string, res: real)
  {
    forall c {:trigger CellName(c, res)} :: name(c) == CellName(c, res)
  }

  lemma NamerNamesCells(res: real)
    ensures NamesCells(Namer(res), res)
  {
  }

  /** The candidates of one pose, one per local offset, in loop order. */
  function PoseCandidates(p: Position, os: seq<Offset>, place: (Position, Offset) -> Scan): seq<Scan>
  {
    seq(|os|, k requires 0 <= k < |os| => place(p, os[k]))
  }

  /** The candidates of the frame loop: every pose in order, each with every local offset. */
  function Candidates(ps: seq<Position>, os: seq<Offset>, place: (Position, Offset) -> Scan): seq<Scan>
    decreases |ps|
  {
    if ps == [] then [] else Candidates(ps[..|ps| - 1], os, place) + PoseCandidates(ps[|ps| - 1], os, place)
  }

  /**
   * One pass of the inner loop body: a candidate outside the table or on a cell
   * already marked is skipped; otherwise its cell is marked, and a scan is
   * generated unless its file is already in the folder.
   */
  function Visit(box: Box, r: Raster, s: Scan): Raster
  {
    if !box.Contains(s.cell) || s.cell in r.marked then r
    else if s.name + ".npz" in r.folder then r.(marked := r.marked + {s.cell})
    else Raster(r.marked + {s.cell}, r.folder + {s.name + ".npz"}, r.scans + [s])
  }

  /** The loops: every candidate, in order. */
  function VisitAll(box: Box, r: Raster, cs: seq<Scan>): Raster
    decreases |cs|
  {
    if cs == [] then r else Visit(box, VisitAll(box, r, cs[..|cs| - 1]), cs[|cs| - 1])
  }

  /** rasterize_map on the poses' translations, for a folder holding the given file names. */
  function RasterizeSpec(ps: seq<Position>, offset: real, res: real, folder: set<string>): Result<Raster, RasterError>
  {
    if ps == [] then Failure(NoPoses)
    else if res == 0.0 then Failure(ZeroResolution)
    else
      var box := TableBox(ps, offset, res);
      if box.Rows() < 0 || box.Cols() < 0 then Failure(NegativeSize)
      else
        var v := OffsetValues(offset, res);
        Success(VisitAll(box, Raster({}, folder, []), Candidates(ps, Pairs(v, v), Placer(res, Namer(res)))))
  }

  // ---------------------------------------------------------------- properties of a run

  /** With a positive resolution and a non-negative offset, the table is not empty. */
  lemma {:induction false} TableBoxWellFormed(ps: seq<Position>, offset: real, res: real)
    requires |ps| > 0 && res > 0.0 && offset >= 0.0
    ensures TableBox(ps, offset, res).WellFormed()
  {
    var xs, ys := Xs(ps), Ys(ps);
    DivMonotone(SeqMin(xs) - offset, SeqMax(xs) + offset, res);
    DivMonotone(SeqMin(ys) - offset, SeqMax(ys) + offset, res);
    RoundMonotone((SeqMin(xs) - offset) / res, (SeqMax(xs) + offset) / res);
    RoundMonotone((SeqMin(ys) - offset) / res, (SeqMax(ys) + offset) / res);
  }

  /** Dividing by a positive resolution and rounding keeps a value between its bounds. */
  lemma {:induction false} SnapBetween(lo: real, v: real, hi: real, res: real)
    requires lo <= v <= hi && res > 0.0
    ensures Round(lo / res) <= Round(v / res) <= Round(hi / res)
  {
    DivMonotone(lo, v, res);
    DivMonotone(v, hi, res);
    RoundBetween(lo / res, v / res, hi / res);
  }

  /** The x part of CandidateInTable. */
  lemma {:induction false} CandidateColumnInTable(ps: seq<Position>, offset: real, res: real, i: int, o: Offset)
    requires 0 <= i < |ps| && res > 0.0 && -offset <= o.dx <= offset
    ensures TableBox(ps, offset, res).xMin <= Snap(ps[i], o, res).x <= TableBox(ps, offset, res).xMax
  {
    var xs := Xs(ps);
    assert SeqMin(xs) <= xs[i] <= SeqMax(xs);
    var box := TableBox(ps, offset, res);
    RoundedBetween(box.xMin, Snap(ps[i], o, res).x, box.xMax, SeqMin(xs) - offset, ps[i].x + o.dx, SeqMax(xs) + offset, res);
  }

  /** The y part of CandidateInTable. */
  lemma {:induction false} CandidateRowInTable(ps: seq<Position>, offset: real, res: real, i: int, o: Offset)
    requires 0 <= i < |ps| && res > 0.0 && -offset <= o.dy <= offset
    ensures TableBox(ps, offset, res).yMin <= Snap(ps[i], o, res).y <= TableBox(ps, offset, res).yMax
  {
    var ys := Ys(ps);
    assert SeqMin(ys) <= ys[i] <= SeqMax(ys);
    var box := TableBox(ps, offset, res);
    RoundedBetween(box.yMin, Snap(ps[i], o, res).y, box.yMax, SeqMin(ys) - offset, ps[i].y + o.dy, SeqMax(ys) + offset, res);
  }

  /** SnapBetween with the three rounded values named. */
  lemma RoundedBetween(a: int, b: int, c: int, lo: real, v: real, hi: real, res: real)
    requires lo <= v <= hi && res > 0.0
    requires a == Round(lo / res) && b == Round(v / res) && c == Round(hi / res)
    ensures a <= b <= c
  {
    SnapBetween(lo, v, hi, res);
  }

  /** A pose moved by at most offset in each direction lands in the table: only farther offsets are skipped. */
  lemma {:induction false} CandidateInTable(ps: seq<Position>, offset: real, res: real, i: int, o: Offset)
    requires 0 <= i < |ps| && res > 0.0
    requires -offset <= o.dx <= offset && -offset <= o.dy <= offset
    ensures TableBox(ps, offset, res).Contains(Snap(ps[i], o, res))
  {
    CandidateColumnInTable(ps, offset, res, i, o);
    CandidateRowInTable(ps, offset, res, i, o);
  }

  /** When offset is n grid steps, every local value lies within [-offset, offset]. */
  lemma {:induction false} OffsetValueWithin(n: nat, res: real, x: real)
    requires res > 0.0 && x in OffsetValues(n as real * res, res)
    ensures -(n as real * res) <= x <= n as real * res
  {
    var k := ArangeMember(-(n as real * res), n as real * res + res, res, x);
    assert k <= 2 * n by {
      OffsetValuesSymmetric(n, res);
    }
    StepWithin(n, k, res);
  }

  /** A value of np.arange is lo plus a whole number of steps. */
  lemma ArangeMember(lo: real, hi: real, step: real, x: real) returns (k: nat)
    requires step != 0.0 && x in Arange(lo, hi, step)
    ensures k < |Arange(lo, hi, step)| && x == lo + k as real * step
  {
    var v := Arange(lo, hi, step);
    k :| 0 <= k < |v| && v[k] == x;
  }

  /** The k-th of 2n + 1 steps from -n res stays within [-n res, n res]. */
  lemma StepWithin(n: nat, k: nat, res: real)
    requires k <= 2 * n && res > 0.0
    ensures -(n as real * res) <= -(n as real * res) + k as real * res <= n as real * res
  {
    assert (2 * n - k) as real * res >= 0.0;
  }

  /** When offset is n grid steps, no local offset of any pose falls outside the table. */
  lemma {:induction false} GridOffsetsInTable(ps: seq<Position>, n: nat, res: real, i: int, o: Offset)
    requires 0 <= i < |ps| && res > 0.0
    requires o in Pairs(OffsetValues(n as real * res, res), OffsetValues(n as real * res, res))
    ensures TableBox(ps, n as real * res, res).Contains(Snap(ps[i], o, res))
  {
    var v := OffsetValues(n as real * res, res);
    PairsMembers(v, v, o);
    OffsetValueWithin(n, res, o.dx);
    OffsetValueWithin(n, res, o.dy);
    CandidateInTable(ps, n as real * res, res, i, o);
  }

  /** The candidates of one pose are what the inner loop body computes for each of its offsets. */
  lemma {:induction false} PoseCandidatesMembers(p: Position, os: seq<Offset>, place: (Position, Offset) -> Scan, s: Scan)
    ensures s in PoseCandidates(p, os, place) <==> exists k :: 0 <= k < |os| && s == place(p, os[k])
  {
    var cs := PoseCandidates(p, os, place);
    if exists k :: 0 <= k < |os| && s == place(p, os[k]) {
      var k :| 0 <= k < |os| && s == place(p, os[k]);
      assert cs[k] == s;
    }
  }

  /** The candidates are exactly what the inner loop body computes for some pose and some local offset. */
  lemma {:induction false} CandidatesMembers(ps: seq<Position>, os: seq<Offset>, place: (Position, Offset) -> Scan, s: Scan)
    ensures s in Candidates(ps, os, place) <==>
      exists i, k :: 0 <= i < |ps| && 0 <= k < |os| && s == place(ps[i], os[k])
    decreases |ps|
  {
    if ps != [] {
      var init := ps[..|ps| - 1];
      var p := ps[|ps| - 1];
      CandidatesMembers(init, os, place, s);
      PoseCandidatesMembers(p, os, place, s);
      if exists i, k :: 0 <= i < |init| && 0 <= k < |os| && s == place(init[i], os[k]) {
        var i, k :| 0 <= i < |init| && 0 <= k < |os| && s == place(init[i], os[k]);
        assert ps[i] == init[i];
      }
      if exists i, k :: 0 <= i < |ps| && 0 <= k < |os| && s == place(ps[i], os[k]) {
        var i, k :| 0 <= i < |ps| && 0 <= k < |os| && s == place(ps[i], os[k]);
        if i < |init| {
          assert init[i] == ps[i];
        }
      }
    }
  }

  /** The cells of the scans of a run. */
  function ScanCells(scans: seq<Scan>): (cs: seq<Cell>)
    ensures |cs| == |scans| && forall i :: 0 <= i < |scans| ==> cs[i] == scans[i].cell
  {
    seq(|scans|, i requires 0 <= i < |scans| => scans[i].cell)
  }

  /**
   * What a run over candidates from pool keeps true, starting from folder0:
   * marked cells are in the table; the scans are candidates of distinct marked
   * cells, written because their file was not in the folder; the folder is
   * folder0 plus the scans' files.
   */
  ghost predicate Consistent(box: Box, folder0: set<string>, pool: seq<Scan>, r: Raster)
  {
    && (forall c :: c in r.marked ==> box.Contains(c))
    && NoDuplicates(ScanCells(r.scans))
    && (forall i :: 0 <= i < |r.scans| ==>
          r.scans[i].cell in r.marked && r.scans[i] in pool && r.scans[i].name + ".npz" !in folder0)
    && (forall f :: f in r.folder <==> f in folder0 || exists i :: 0 <= i < |r.scans| && f == r.scans[i].name + ".npz")
  }

  lemma {:induction false} VisitConsistent(box: Box, folder0: set<string>, pool: seq<Scan>, r: Raster, s: Scan)
    requires Consistent(box, folder0, pool, r) && s in pool
    ensures Consistent(box, folder0, pool, Visit(box, r, s))
  {
    if box.Contains(s.cell) && s.cell !in r.marked && s.name + ".npz" !in r.folder {
      var r' := Visit(box, r, s);
      assert r'.scans == r.scans + [s];
      assert ScanCells(r'.scans) == ScanCells(r.scans) + [s.cell];
      assert s.cell !in ScanCells(r.scans);
      forall f
        ensures f in r'.folder <==> f in folder0 || exists i :: 0 <= i < |r'.scans| && f == r'.scans[i].name + ".npz"
      {
        if f in r.folder && f !in folder0 {
          var i :| 0 <= i < |r.scans| && f == r.scans[i].name + ".npz";
          assert r'.scans[i] == r.scans[i];
        }
        if f == s.name + ".npz" {
          assert r'.scans[|r.scans|] == s;
        }
      }
    }
  }

  lemma {:induction false} VisitAllConsistent(box: Box, folder0: set<string>, pool: seq<Scan>, r: Raster, cs: seq<Scan>)
    requires Consistent(box, folder0, pool, r)
    requires forall k :: 0 <= k < |cs| ==> cs[k] in pool
    ensures Consistent(box, folder0, pool, VisitAll(box, r, cs))
    decreases |cs|
  {
    if cs != [] {
      VisitAllConsistent(box, folder0, pool, r, cs[..|cs| - 1]);
      VisitConsistent(box, folder0, pool, VisitAll(box, r, cs[..|cs| - 1]), cs[|cs| - 1]);
    }
  }

  /**
   * A successful run handles every in-table cell at most once: the scans are
   * candidates of distinct cells inside the table, none of whose files was in
   * the folder, and the folder afterwards holds exactly the old files and the new
   * scans.
   */
  lemma {:induction false} EachCellOnce(ps: seq<Position>, offset: real, res: real, folder: set<string>)
    requires RasterizeSpec(ps, offset, res, folder).Success?
    ensures var v := OffsetValues(offset, res);
      Consistent(TableBox(ps, offset, res), folder, Candidates(ps, Pairs(v, v), Placer(res, Namer(res))),
                 RasterizeSpec(ps, offset, res, folder).value)
  {
    var v := OffsetValues(offset, res);
    var cs := Candidates(ps, Pairs(v, v), Placer(res, Namer(res)));
    VisitAllConsistent(TableBox(ps, offset, res), folder, cs, Raster({}, folder, []), cs);
  }

  /** The cells a run marks: those already marked and the in-table cells of the candidates. */
  lemma {:induction false} VisitAllMarks(box: Box, r: Raster, cs: seq<Scan>, c: Cell)
    ensures c in VisitAll(box, r, cs).marked <==>
      c in r.marked || (box.Contains(c) && exists k :: 0 <= k < |cs| && cs[k].cell == c)
    decreases |cs|
  {
    if cs != [] {
      var init := cs[..|cs| - 1];
      VisitAllMarks(box, r, init, c);
      if exists k :: 0 <= k < |init| && init[k].cell == c {
        var k :| 0 <= k < |init| && init[k].cell == c;
        assert cs[k] == init[k];
      }
      if exists k :: 0 <= k < |cs| && cs[k].cell == c {
        var k :| 0 <= k < |cs| && cs[k].cell == c;
        if k < |init| {
          assert init[k] == cs[k];
        }
      }
    }
  }

  /** The placer computes the candidate of a pose and an offset, on the snapped cell. */
  lemma {:induction false} PlacerCell(res: real, p: Position, o: Offset)
    requires res != 0.0
    ensures Placer(res, Namer(res))(p, o) == CandidateOf(p, o, res, Namer(res))
    ensures Placer(res, Namer(res))(p, o).cell == Snap(p, o, res)
  {
  }

  /** A run from an empty table marks exactly the in-table cells that some pose reaches with some offset. */
  lemma {:induction false} RunMarks(box: Box, res: real, folder: set<string>, ps: seq<Position>, os: seq<Offset>, c: Cell)
    requires res != 0.0
    ensures c in VisitAll(box, Raster({}, folder, []), Candidates(ps, os, Placer(res, Namer(res)))).marked <==>
      box.Contains(c) && exists i, o :: 0 <= i < |ps| && o in os && Snap(ps[i], o, res) == c
  {
    var place := Placer(res, Namer(res));
    var cs := Candidates(ps, os, place);
    VisitAllMarks(box, Raster({}, folder, []), cs, c);
    if exists k :: 0 <= k < |cs| && cs[k].cell == c {
      var k :| 0 <= k < |cs| && cs[k].cell == c;
      CandidatesMembers(ps, os, place, cs[k]);
      var i, j :| 0 <= i < |ps| && 0 <= j < |os| && cs[k] == place(ps[i], os[j]);
      PlacerCell(res, ps[i], os[j]);
      assert os[j] in os;
    }
    if exists i, o :: 0 <= i < |ps| && o in os && Snap(ps[i], o, res) == c {
      var i, o :| 0 <= i < |ps| && o in os && Snap(ps[i], o, res) == c;
      var j :| 0 <= j < |os| && os[j] == o;
      CandidatesMembers(ps, os, place, place(ps[i], o));
      var k :| 0 <= k < |cs| && cs[k] == place(ps[i], o);
      PlacerCell(res, ps[i], o);
    }
  }

  /** Every scan of a run is the candidate of some pose and some offset: named after its cell, at the pose's height. */
  lemma {:induction false} RunScans(box: Box, res: real, folder: set<string>, ps: seq<Position>, os: seq<Offset>)
    requires res != 0.0
    ensures forall s :: s in VisitAll(box, Raster({}, folder, []), Candidates(ps, os, Placer(res, Namer(res)))).scans ==>
      exists i, o :: 0 <= i < |ps| && o in os && s == CandidateOf(ps[i], o, res, Namer(res))
  {
    var place := Placer(res, Namer(res));
    var cs := Candidates(ps, os, place);
    var r := VisitAll(box, Raster({}, folder, []), cs);
    VisitAllConsistent(box, folder, cs, Raster({}, folder, []), cs);
    forall s | s in r.scans
      ensures exists i, o :: 0 <= i < |ps| && o in os && s == CandidateOf(ps[i], o, res, Namer(res))
    {
      CandidatesMembers(ps, os, place, s);
      var i, j :| 0 <= i < |ps| && 0 <= j < |os| && s == place(ps[i], os[j]);
      PlacerCell(res, ps[i], os[j]);
      assert os[j] in os;
    }
  }

  /** A successful run is the loops over the table of the poses' extent. */
  lemma {:induction false} SpecRun(ps: seq<Position>, offset: real, res: real, folder: set<string>)
    requires RasterizeSpec(ps, offset, res, folder).Success?
    ensures ps != [] && res != 0.0
    ensures var v := OffsetValues(offset, res);
      RasterizeSpec(ps, offset, res, folder).value
        == VisitAll(TableBox(ps, offset, res), Raster({}, folder, []), Candidates(ps, Pairs(v, v), Placer(res, Namer(res))))
  {
  }

  /**
   * A successful run marks exactly the in-table cells that some pose reaches
   * with some local offset, and every scan is the candidate of such a pose and
   * offset.
   */
  lemma {:induction false} MarkedCells(ps: seq<Position>, offset: real, res: real, folder: set<string>, c: Cell)
    requires RasterizeSpec(ps, offset, res, folder).Success?
    ensures var v := OffsetValues(offset, res);
      var box := TableBox(ps, offset, res);
      var r := RasterizeSpec(ps, offset, res, folder).value;
      && (c in r.marked <==>
            box.Contains(c) && exists i, o :: 0 <= i < |ps| && o in Pairs(v, v) && Snap(ps[i], o, res) == c)
      && (forall s :: s in r.scans ==>
            exists i, o :: 0 <= i < |ps| && o in Pairs(v, v) && s == CandidateOf(ps[i], o, res, Namer(res)))
  {
    var v := OffsetValues(offset, res);
    SpecRun(ps, offset, res, folder);
    RunMarks(TableBox(ps, offset, res), res, folder, ps, Pairs(v, v), c);
    RunScans(TableBox(ps, offset, res), res, folder, ps, Pairs(v, v));
  }

  // ---------------------------------------------------------------- the imperative run

  /** grid_map_lut: 1 at the slot of every marked cell, -1 elsewhere, and every marked cell in the table. */
  ghost predicate Marks(box: Box, lut: array2<int>, marked: set<Cell>)
    reads lut
  {
    && lut.Length0 == box.Rows() && lut.Length1 == box.Cols()
    && (forall c :: c in marked ==> box.Contains(c))
    && forall i, j :: 0 <= i < lut.Length0 && 0 <= j < lut.Length1 ==>
         lut[i, j] == if box.CellAt(i, j) in marked then 1 else -1
  }

  /** The table slot computed from a cell's centre, max_y - y_global / grid_res and x_global / grid_res - min_x rounded, is the cell's row and column. */
  lemma {:induction false} LutIndex(box: Box, c: Cell, res: real, xGlobal: real, yGlobal: real)
    requires res != 0.0 && xGlobal == c.x as real * res && yGlobal == c.y as real * res
    ensures Round(box.yMax as real - yGlobal / res) == box.Row(c)
    ensures Round(xGlobal / res - box.xMin as real) == box.Col(c)
  {
    assert yGlobal / res == c.y as real;
    assert xGlobal / res == c.x as real;
    RoundOfInteger(box.yMax - c.y);
    RoundOfInteger(c.x - box.xMin);
  }

  /** Marking the slot of an unmarked in-table cell. */
  method Mark(box: Box, lut: array2<int>, marked: set<Cell>, c: Cell)
    requires Marks(box, lut, marked) && box.Contains(c) && c !in marked
    modifies lut
    ensures Marks(box, lut, marked + {c})
  {
    PlacementRoundTrip(box, c);
    lut[box.Row(c), box.Col(c)] := 1;
    forall i, j | 0 <= i < lut.Length0 && 0 <= j < lut.Length1
      ensures lut[i, j] == if box.CellAt(i, j) in marked + {c} then 1 else -1
    {
      if (i, j) != (box.Row(c), box.Col(c)) {
        assert box.CellAt(i, j) != c;
      }
    }
  }

  /** The inner loop body after the snap: index check, first-sight check, existence check, generation. */
  method VisitCell(box: Box, res: real, lut: array2<int>, r: Raster, s: Scan, xGlobal: real, yGlobal: real)
    returns (next: Raster)
    requires res != 0.0 && Marks(box, lut, r.marked)
    requires xGlobal == s.cell.x as real * res && yGlobal == s.cell.y as real * res
    modifies lut
    ensures next == Visit(box, r, s) && Marks(box, lut, next.marked)
  {
    var lutX := Round(box.yMax as real - yGlobal / res);
    var lutY := Round(xGlobal / res - box.xMin as real);
    LutIndex(box, s.cell, res, xGlobal, yGlobal);
    PlacementRoundTrip(box, s.cell);
    if lutX < 0 || lutX >= box.Rows() || lutY < 0 || lutY >= box.Cols() {
      return r;
    }
    if lut[lutX, lutY] < 1 {
      Mark(box, lut, r.marked, s.cell);
      if s.name + ".npz" in r.folder {
        return r.(marked := r.marked + {s.cell});
      }
      return Raster(r.marked + {s.cell}, r.folder + {s.name + ".npz"}, r.scans + [s]);
    }
    return r;
  }

  /** coord2filename of a cell's centre. */
  method FileName(c: Cell, res: real, ghost name: Cell -> string) returns (fileName: string)
    requires NamesCells(name, res)
    ensures fileName == name(c)
  {
    fileName := CellName(c, res);
  }

  /** The inner loop body: the snapped cell, x_global, y_global and the file name, then the visit. */
  method VisitOffset(box: Box, res: real, ghost name: Cell -> string, lut: array2<int>, r: Raster, p: Position, o: Offset)
    returns (next: Raster)
    requires res != 0.0 && NamesCells(name, res) && Marks(box, lut, r.marked)
    modifies lut
    ensures next == Visit(box, r, Placer(res, name)(p, o)) && Marks(box, lut, next.marked)
  {
    var cell := Snap(p, o, res);
    var xGlobal := cell.x as real * res;
    var yGlobal := cell.y as real * res;
    var fileName := FileName(cell, res, name);
    next := VisitCell(box, res, lut, r, Scan(cell, p.z, fileName), xGlobal, yGlobal);
  }

  /** The inner loop over the local offsets of one pose, continuing a run over the candidates done so far. */
  method VisitPose(box: Box, res: real, ghost name: Cell -> string, lut: array2<int>, r: Raster, p: Position,
                   locs: seq<Offset>, ghost r0: Raster, ghost done: seq<Scan>)
    returns (next: Raster)
    requires res != 0.0 && NamesCells(name, res) && Marks(box, lut, r.marked) && r == VisitAll(box, r0, done)
    modifies lut
    ensures next == VisitAll(box, r0, done + PoseCandidates(p, locs, Placer(res, name))) && Marks(box, lut, next.marked)
  {
    next := r;
    ghost var place := Placer(res, name);
    assert done + PoseCandidates(p, locs[..0], place) == done;
    for k := 0 to |locs|
      invariant Marks(box, lut, next.marked)
      invariant next == VisitAll(box, r0, done + PoseCandidates(p, locs[..k], place))
    {
      next := VisitOffset(box, res, name, lut, next, p, locs[k]);
      RunStep(box, r0, done, p, locs, k, place);
    }
    assert locs[..|locs|] == locs;
  }

  /** Running over one more offset of the pose visits that offset's candidate last. */
  lemma RunStep(box: Box, r0: Raster, done: seq<Scan>, p: Position, locs: seq<Offset>, k: int,
                place: (Position, Offset) -> Scan)
    requires 0 <= k < |locs|
    ensures VisitAll(box, r0, done + PoseCandidates(p, locs[..k + 1], place))
      == Visit(box, VisitAll(box, r0, done + PoseCandidates(p, locs[..k], place)), place(p, locs[k]))
  {
    var cs := done + PoseCandidates(p, locs[..k], place);
    assert done + PoseCandidates(p, locs[..k + 1], place) == cs + [place(p, locs[k])];
    assert (cs + [place(p, locs[k])])[..|cs|] == cs;
  }

  /** The frame loop: for every pose, for every local offset, the inner loop body. */
  method VisitFrames(box: Box, res: real, ghost name: Cell -> string, lut: array2<int>, r0: Raster,
                     ps: seq<Position>, locs: seq<Offset>)
    returns (r: Raster)
    requires res != 0.0 && NamesCells(name, res) && Marks(box, lut, r0.marked)
    modifies lut
    ensures r == VisitAll(box, r0, Candidates(ps, locs, Placer(res, name))) && Marks(box, lut, r.marked)
  {
    r := r0;
    ghost var place := Placer(res, name);
    for i := 0 to |ps|
      invariant Marks(box, lut, r.marked)
      invariant r == VisitAll(box, r0, Candidates(ps[..i], locs, place))
    {
      r := VisitPose(box, res, name, lut, r, ps[i], locs, r0, Candidates(ps[..i], locs, place));
      assert ps[..i + 1][..i] == ps[..i];
    }
    assert ps[..|ps|] == ps;
  }

  /** rasterize_map: the table bounds, the local offsets, then the frame loop over every offset. */
  method RasterizeMap(ps: seq<Position>, offset: real, res: real, folder: set<string>)
    returns (result: Result<Raster, RasterError>)
    ensures result == RasterizeSpec(ps, offset, res, folder)
  {
    if |ps| == 0 {
      return Failure(NoPoses);
    }
    if res == 0.0 {
      return Failure(ZeroResolution);
    }
    var box := TableBox(ps, offset, res);
    var lutXSize := box.yMax - box.yMin + 1;
    var lutYSize := box.xMax - box.xMin + 1;
    if lutXSize < 0 || lutYSize < 0 {
      return Failure(NegativeSize);
    }
    var lut := new int[lutXSize, lutYSize]((i, j) => -1);
    var locs := LocalOffsets(offset, res);
    NamerNamesCells(res);
    var r := VisitFrames(box, res, Namer(res), lut, Raster({}, folder, []), ps, locs);
    return Success(r);
  }
}
