/**
 * Start-up of the localiser: the two particle initialisers (the random draws
 * they consume are inputs) and check_mapsize, which reads the map's cells back
 * from the names of the files in the map folder and bounds them with a box.
 */
module Initialization {
  import opened Wrappers
  import opened Grid
  import opened Names
  import opened Particles

  /** The three rand(1) draws one uniform particle consumes, in the order x, y, theta. */
  datatype Draw = Draw(rx: real, ry: real, rt: real)

  predicate UnitDraw(d: Draw)
  {
    0.0 <= d.rx < 1.0 && 0.0 <= d.ry < 1.0 && 0.0 <= d.rt < 1.0
  }

  /** -pi + 2 pi r: a draw r in [0, 1) as a heading. */
  function Heading(r: real): real
  {
    -Pi + 2.0 * Pi * r
  }

  /** (hi - lo) r + lo: a draw r in [0, 1) spread over [lo, hi]. */
  function Spread(lo: int, hi: int, r: real): real
  {
    (hi - lo) as real * r + lo as real
  }

  /** The particle init_particles_uniform builds from one triple of draws. */
  function UniformParticle(box: Box, d: Draw): Particle
  {
    Particle(Spread(box.xMin, box.xMax, d.rx), Spread(box.yMin, box.yMax, d.ry), Heading(d.rt), 1.0)
  }

  /** A draw in [0, 1) gives a heading in [-pi, pi). */
  lemma {:induction false} HeadingRange(r: real)
    requires 0.0 <= r < 1.0
    ensures -Pi <= Heading(r) < Pi
  {
  }

  /** A draw in [0, 1) lands in [lo, hi), or on lo itself when the interval is a single point. */
  lemma {:induction false} SpreadRange(lo: int, hi: int, r: real)
    requires lo <= hi && 0.0 <= r < 1.0
    ensures lo as real <= Spread(lo, hi, r) <= hi as real
    ensures lo < hi ==> Spread(lo, hi, r) < hi as real
  {
    var w := (hi - lo) as real;
    var v := w * (1.0 - r);
    assert 0.0 <= w * r by {
      assert w >= 0.0;
    }
    assert 0.0 <= v && (lo < hi ==> 0.0 < v) by {
      assert w >= 0.0 && 1.0 - r > 0.0;
    }
    assert w - w * r == v;
  }

  /** Every uniform particle lies in the map box, with a heading in [-pi, pi) and weight 1. */
  lemma {:induction false} UniformRanges(box: Box, d: Draw)
    requires box.WellFormed() && UnitDraw(d)
    ensures var p := UniformParticle(box, d);
      && box.xMin as real <= p.x <= box.xMax as real && (box.xMin < box.xMax ==> p.x < box.xMax as real)
      && box.yMin as real <= p.y <= box.yMax as real && (box.yMin < box.yMax ==> p.y < box.yMax as real)
      && -Pi <= p.theta < Pi && p.weight == 1.0
  {
    SpreadRange(box.xMin, box.xMax, d.rx);
    SpreadRange(box.yMin, box.yMax, d.ry);
    HeadingRange(d.rt);
  }

  /** init_particles_uniform: particle i is built from the i-th triple of draws. */
  method InitParticlesUniform(box: Box, n: nat, draws: seq<Draw>) returns (ps: seq<Particle>)
    requires |draws| >= n
    ensures |ps| == n && forall i :: 0 <= i < n ==> ps[i] == UniformParticle(box, draws[i])
  {
    ps := [];
    for i := 0 to n
      invariant |ps| == i && forall j :: 0 <= j < i ==> ps[j] == UniformParticle(box, draws[j])
    {
      var d := draws[i];
      var x := (box.xMax - box.xMin) as real * d.rx + box.xMin as real;
      var y := (box.yMax - box.yMin) as real * d.ry + box.yMin as real;
      var theta := -Pi + 2.0 * Pi * d.rt;
      ps := ps + [Particle(x, y, theta, 1.0)];
    }
  }

  /** The particle init_particles_given_coords puts on road coordinate k. */
  function RoadParticle(coords: seq<seq<real>>, k: int, rt: real, initWeight: real): Particle
    requires 0 <= k < |coords| && |coords[k]| >= 2
  {
    Particle(coords[k][0], coords[k][1], Heading(rt), initWeight)
  }

  /** A particle put on the road sits exactly on one of the road coordinates, with a heading in [-pi, pi). */
  lemma {:induction false} RoadParticleOnRoad(coords: seq<seq<real>>, k: int, rt: real, initWeight: real)
    requires 0 <= k < |coords| && |coords[k]| >= 2 && 0.0 <= rt < 1.0
    ensures var p := RoadParticle(coords, k, rt, initWeight);
      && (exists c :: c in coords && |c| >= 2 && p.x == c[0] && p.y == c[1])
      && -Pi <= p.theta < Pi && p.weight == initWeight
  {
    HeadingRange(rt);
    assert coords[k] in coords;
  }

  /**
   * init_particles_given_coords: np.random.choice picks a road coordinate for
   * every particle (the choices are an input), then each particle draws its heading.
   */
  method InitParticlesGivenCoords(n: nat, coords: seq<seq<real>>, choices: seq<int>, headingDraws: seq<real>, initWeight: real)
    returns (ps: seq<Particle>)
    requires |choices| == n && forall i :: 0 <= i < n ==> 0 <= choices[i] < |coords|
    requires forall k :: 0 <= k < |coords| ==> |coords[k]| >= 2
    requires |headingDraws| >= n
    ensures |ps| == n
    ensures forall i :: 0 <= i < n ==> ps[i] == RoadParticle(coords, choices[i], headingDraws[i], initWeight)
  {
    ps := [];
    for i := 0 to n
      invariant |ps| == i
      invariant forall j :: 0 <= j < i ==> ps[j] == RoadParticle(coords, choices[j], headingDraws[j], initWeight)
    {
      var x := coords[choices[i]][0];
      var y := coords[choices[i]][1];
      var theta := -Pi + 2.0 * Pi * headingDraws[i];
      ps := ps + [Particle(x, y, theta, initWeight)];
    }
  }

  // ---------------------------------------------------------------- file names

  /** The position of the last c in s, or -1 (str.rfind). */
  function LastIndex(s: string, c: char): (i: int)
    ensures -1 <= i < |s|
    ensures i >= 0 ==> s[i] == c
    ensures forall j :: i < j < |s| ==> s[j] != c
  {
    if s == [] then -1
    else if s[|s| - 1] == c then |s| - 1
    else LastIndex(s[..|s| - 1], c)
  }

  /** os.path.basename: what follows the last '/'. */
  function Basename(p: string): string
  {
    p[LastIndex(p, '/') + 1..]
  }

  /** os.path.splitext(p)[1]: from the last '.' of the last component on, unless only dots precede it there. */
  function Extension(p: string): string
  {
    var base := Basename(p);
    var d := LastIndex(base, '.');
    if d > 0 && exists j :: 0 <= j < d && base[j] != '.' then base[d..] else ""
  }

  /** Python's `t in s` on strings. */
  predicate Infix(t: string, s: string)
    decreases |s|
  {
    |t| <= |s| && (s[..|t|] == t || Infix(t, s[1..]))
  }

  /** s.replace(t, ''): every occurrence of t removed, scanning left to right. */
  function Remove(s: string, t: string): string
    requires |t| > 0
    decreases |s|
  {
    if |s| < |t| then s
    else if s[..|t|] == t then Remove(s[|t|..], t)
    else [s[0]] + Remove(s[1..], t)
  }

  /** The suffix check_mapsize strips from every name: decided by the first file's extension alone. */
  function Stripped(first: string): string
  {
    if Infix(".png", Extension(first)) then ".png" else ".npz"
  }

  /** The fields of one file name: its basename, the suffix removed, split on '_'. */
  function NameFields(path: string, suffix: string): seq<string>
    requires |suffix| > 0
  {
    Split(Remove(Basename(path), suffix), '_')
  }

  /** The filename loop: the fields of every name that splits into more than one field, in order. */
  function NameRows(paths: seq<string>, suffix: string): (rows: seq<seq<string>>)
    requires |suffix| > 0
    ensures forall i :: 0 <= i < |rows| ==> |rows[i]| > 1
  {
    if paths == [] then []
    else
      var fields := NameFields(paths[|paths| - 1], suffix);
      NameRows(paths[..|paths| - 1], suffix) + if |fields| > 1 then [fields] else []
  }

  // ---------------------------------------------------------------- the map box

  /** Why check_mapsize raises instead of returning. */
  datatype MapError =
    | EmptyFolder     // virtual_scan_paths[0] on an empty folder
    | NoCoordinates   // no name split into two or more fields: grid_coords[:, 0] on a 1-d array
    | NotNumeric      // np.array(..., dtype=float) on ragged rows or a field float() rejects
    | NoneRetained    // np.min over the rows left by the < 1000 mask
    | ZeroResolution  // the division by grid_res gives inf or nan, which int() rejects

  /** The returned map size [min_x, max_x, min_y, max_y] and the scaled coordinates. */
  datatype MapSize = MapSize(box: Box, coords: seq<seq<real>>)

  predicate Rectangular(rows: seq<seq<string>>)
  {
    forall i :: 0 <= i < |rows| ==> |rows[i]| == |rows[0]|
  }

  /** float() of every field, row by row. */
  function ParseRows(rows: seq<seq<string>>): (t: Option<seq<seq<real>>>)
    ensures t.Some? ==> |t.value| == |rows| && forall i :: 0 <= i < |rows| ==> |t.value[i]| == |rows[i]|
  {
    if rows == [] then Some([])
    else
      match (ParseFields(rows[0]), ParseRows(rows[1..]))
      case (Some(r), Some(rest)) => Some([r] + rest)
      case _ => None
  }

  /** grid_coords[grid_coords[:, 0] < 1000]: the rows whose first coordinate is below 1000, in order. */
  function Retained(table: seq<seq<real>>): (kept: seq<seq<real>>)
    requires forall i :: 0 <= i < |table| ==> |table[i]| >= 2
    ensures |kept| <= |table| && forall i :: 0 <= i < |kept| ==> |kept[i]| >= 2
  {
    if table == [] then []
    else (if table[0][0] < 1000.0 then [table[0]] else []) + Retained(table[1..])
  }

  /** grid_coords / grid_res, entry by entry. */
  function Scale(rows: seq<seq<real>>, res: real): (s: seq<seq<real>>)
    requires res != 0.0
    ensures |s| == |rows|
    ensures forall i :: 0 <= i < |rows| ==> |s[i]| == |rows[i]|
    ensures forall i, j :: 0 <= i < |rows| && 0 <= j < |rows[i]| ==> s[i][j] == rows[i][j] / res
  {
    seq(|rows|, i requires 0 <= i < |rows| => seq(|rows[i]|, j requires 0 <= j < |rows[i]| => rows[i][j] / res))
  }

  /** Multiplying a scaled coordinate by the resolution gives back the coordinate read from the name. */
  lemma {:induction false} ScaleInverse(rows: seq<seq<real>>, res: real, i: int, j: int)
    requires res != 0.0 && 0 <= i < |rows| && 0 <= j < |rows[i]|
    ensures Scale(rows, res)[i][j] * res == rows[i][j]
  {
  }

  /** Column j of a table. */
  function Column(rows: seq<seq<real>>, j: nat): (col: seq<real>)
    requires forall i :: 0 <= i < |rows| ==> j < |rows[i]|
    ensures |col| == |rows| && forall i :: 0 <= i < |rows| ==> col[i] == rows[i][j]
  {
    seq(|rows|, i requires 0 <= i < |rows| => rows[i][j])
  }

  /** int(np.round(min)) and int(np.round(max)) of the x and y columns. */
  function Bounds(coords: seq<seq<real>>): Box
    requires |coords| > 0 && forall i :: 0 <= i < |coords| ==> |coords[i]| >= 2
  {
    Box(Round(SeqMin(Column(coords, 0))), Round(SeqMax(Column(coords, 0))),
        Round(SeqMin(Column(coords, 1))), Round(SeqMax(Column(coords, 1))))
  }

  /** Everything after the filename loop: parse, mask, scale and bound. */
  function FromNames(rows: seq<seq<string>>, res: real): Result<MapSize, MapError>
    requires forall i :: 0 <= i < |rows| ==> |rows[i]| > 1
  {
    if rows == [] then Failure(NoCoordinates)
    else if !Rectangular(rows) then Failure(NotNumeric)
    else
      match ParseRows(rows)
      case None => Failure(NotNumeric)
      case Some(table) =>
        var kept := Retained(table);
        if kept == [] then Failure(NoneRetained)
        else if res == 0.0 then Failure(ZeroResolution)
        else
          var coords := Scale(kept, res);
          Success(MapSize(Bounds(coords), coords))
  }

  /** check_mapsize on the sorted list of the folder's file paths. */
  function MapSizeOf(paths: seq<string>, res: real): Result<MapSize, MapError>
  {
    if paths == [] then Failure(EmptyFolder)
    else FromNames(NameRows(paths, Stripped(paths[0])), res)
  }

  /** check_mapsize: the filename loop, then the whole-array steps. */
  method CheckMapsize(paths: seq<string>, res: real) returns (r: Result<MapSize, MapError>)
    ensures r == MapSizeOf(paths, res)
  {
    if |paths| == 0 {
      return Failure(EmptyFolder);
    }
    var suffix := if Infix(".png", Extension(paths[0])) then ".png" else ".npz";
    var rows: seq<seq<string>> := [];
    for i := 0 to |paths|
      invariant rows == NameRows(paths[..i], suffix)
    {
      var coord := Split(Remove(Basename(paths[i]), suffix), '_');
      if |coord| > 1 {
        rows := rows + [coord];
      }
      assert paths[..i + 1][..i] == paths[..i];
    }
    assert paths[..|paths|] == paths;
    r := FromNames(rows, res);
  }

  /** The mask keeps exactly the rows whose first coordinate is below 1000. */
  lemma {:induction false} RetainedRows(table: seq<seq<real>>)
    requires forall i :: 0 <= i < |table| ==> |table[i]| >= 2
    ensures forall r :: r in Retained(table) <==> r in table && r[0] < 1000.0
  {
    if table != [] {
      RetainedRows(table[1..]);
      assert forall r :: r in table <==> r == table[0] || r in table[1..];
    }
  }

  /**
   * The box check_mapsize returns is well formed and every returned coordinate
   * rounds into it; each coordinate is a retained row divided by the resolution.
   */
  lemma {:induction false} MapSizeInBox(paths: seq<string>, res: real)
    requires MapSizeOf(paths, res).Success?
    ensures var m := MapSizeOf(paths, res).value;
      && m.box.WellFormed() && |m.coords| > 0
      && forall i :: 0 <= i < |m.coords| ==>
        |m.coords[i]| >= 2 && m.box.Contains(Cell(Round(m.coords[i][0]), Round(m.coords[i][1])))
  {
    var m := MapSizeOf(paths, res).value;
    MapSizeShape(paths, res);
    BoundsContain(m.coords);
  }

  /** A returned map size is the bounds of its own nonempty table of points. */
  lemma MapSizeShape(paths: seq<string>, res: real)
    requires MapSizeOf(paths, res).Success?
    ensures var m := MapSizeOf(paths, res).value;
      && |m.coords| > 0 && (forall i :: 0 <= i < |m.coords| ==> |m.coords[i]| >= 2)
      && m.box == Bounds(m.coords)
  {
    var rows := NameRows(paths, Stripped(paths[0]));
    var kept := Retained(ParseRows(rows).value);
    assert MapSizeOf(paths, res).value == MapSize(Bounds(Scale(kept, res)), Scale(kept, res));
  }

  /** The rounded bounds of a nonempty table of points contain every rounded point. */
  lemma BoundsContain(coords: seq<seq<real>>)
    requires |coords| > 0 && forall i :: 0 <= i < |coords| ==> |coords[i]| >= 2
    ensures Bounds(coords).WellFormed()
    ensures forall i :: 0 <= i < |coords| ==>
      Bounds(coords).Contains(Cell(Round(coords[i][0]), Round(coords[i][1])))
  {
    var xs := Column(coords, 0);
    var ys := Column(coords, 1);
    RoundBetween(SeqMin(xs), xs[0], SeqMax(xs));
    RoundBetween(SeqMin(ys), ys[0], SeqMax(ys));
    forall i | 0 <= i < |coords|
      ensures Bounds(coords).Contains(Cell(Round(coords[i][0]), Round(coords[i][1])))
    {
      RoundBetween(SeqMin(xs), xs[i], SeqMax(xs));
      RoundBetween(SeqMin(ys), ys[i], SeqMax(ys));
    }
  }

  /** Every returned coordinate comes from a name whose first value is below 1000 m. */
  lemma {:induction false} MapSizeRetained(paths: seq<string>, res: real)
    requires MapSizeOf(paths, res).Success?
    ensures paths != [] && res != 0.0
    ensures var rows := NameRows(paths, Stripped(paths[0]));
      var table := ParseRows(rows).value;
      var m := MapSizeOf(paths, res).value;
      && ParseRows(rows).Some?
      && m.coords == Scale(Retained(table), res)
      && forall r :: r in Retained(table) <==> r in table && r[0] < 1000.0
  {
    var rows := NameRows(paths, Stripped(paths[0]));
    RetainedRows(ParseRows(rows).value);
  }

  // ---------------------------------------------------------------- names of map cells

  /** Every '.' is followed by a digit: a suffix starting with '.' and a letter cannot begin inside s. */
  predicate DotsBeforeDigits(s: string)
  {
    forall i :: 0 <= i < |s| && s[i] == '.' ==> i + 1 < |s| && IsDigit(s[i + 1])
  }

  /** A coordinate part is a sign, digits and one point followed by two digits. */
  lemma {:induction false} CoordPartChars(h: int)
    ensures DotsBeforeDigits(CoordPart(h)) && '/' !in CoordPart(h) && '_' !in CoordPart(h)
    ensures CoordPart(h)[0] == '+' || CoordPart(h)[0] == '-'
  {
    var a := if h < 0 then -h else h;
    var k := CoordPartForm(h);
    var p := Padded(k, a / 100, a % 100);
    PaddedShape(k, a / 100, a % 100);
    var s := CoordPart(h);
    assert s == [if h < 0 then '-' else '+'] + p;
    forall i | 0 <= i < |s| && s[i] == '.'
      ensures i + 1 < |s| && IsDigit(s[i + 1])
    {
      assert i >= 1 && p[i - 1] == '.';
      assert i - 1 == |p| - 3;
      assert s[i + 1] == p[i];
    }
    forall i | 0 <= i < |s|
      ensures s[i] != '/'
    {
      if i > 0 {
        assert s[i] == p[i - 1];
      }
    }
  }

  /** A cell name is two coordinate parts around '_': no '/', and every '.' is followed by a digit. */
  lemma {:induction false} CoordNameChars(x: int, y: int)
    ensures DotsBeforeDigits(CoordName(x, y)) && '/' !in CoordName(x, y)
    ensures CoordName(x, y)[0] == '+' || CoordName(x, y)[0] == '-'
  {
    var a := CoordPart(x);
    var b := CoordPart(y);
    CoordPartChars(x);
    CoordPartChars(y);
    var s := CoordName(x, y);
    assert s == a + ['_'] + b;
    forall i | 0 <= i < |s| && s[i] == '.'
      ensures i + 1 < |s| && IsDigit(s[i + 1])
    {
      if i < |a| {
        assert a[i] == '.';
        assert s[i + 1] == a[i + 1];
      } else {
        assert i > |a| && b[i - |a| - 1] == '.';
        assert s[i + 1] == b[i - |a|];
      }
    }
    forall i | 0 <= i < |s|
      ensures s[i] != '/'
    {
      if i < |a| {
        assert s[i] == a[i];
      } else if i > |a| {
        assert s[i] == b[i - |a| - 1];
      }
    }
  }

  /** Removing a '.'-led suffix from s + suffix gives s back when no '.' in s is followed by the suffix's letter. */
  lemma {:induction false} RemoveSuffix(s: string, t: string)
    requires |t| >= 2 && t[0] == '.' && !IsDigit(t[1]) && DotsBeforeDigits(s)
    ensures Remove(s + t, t) == s
    decreases |s|
  {
    if s == [] {
      assert (s + t)[..|t|] == t;
      assert (s + t)[|t|..] == [];
    } else {
      var u := s + t;
      assert u[..|t|] != t by {
        if s[0] == '.' {
          assert u[1] == s[1];
        } else {
          assert u[0] == s[0];
        }
      }
      assert u[1..] == s[1..] + t;
      RemoveSuffix(s[1..], t);
    }
  }

  /** The last separator of dir/name is the one in front of name when name has none. */
  lemma {:induction false} LastSeparator(dir: string, name: string)
    requires '/' !in name
    ensures Basename(dir + "/" + name) == name
  {
    var p := dir + "/" + name;
    var i := LastIndex(p, '/');
    assert p[|dir|] == '/';
    assert p[|dir| + 1..] == name;
  }

  /** The last '.' of name + ext is the one that starts ext. */
  lemma {:induction false} LastDot(n: string, ext: string)
    requires ext == ".png" || ext == ".npz"
    ensures LastIndex(n + ext, '.') == |n|
  {
    var base := n + ext;
    var d := LastIndex(base, '.');
    assert base[|n|] == '.';
    assert forall j :: |n| < j < |base| ==> base[j] == ext[j - |n|];
  }

  /** Only the first of the two suffixes contains ".png". */
  lemma {:induction false} PngTest(ext: string)
    requires ext == ".png" || ext == ".npz"
    ensures Infix(".png", ext) <==> ext == ".png"
  {
    if ext == ".npz" {
      assert ext[..4][1] != ".png"[1];
      assert !Infix(".png", ext[1..]);
    }
  }

  /** The basename of dir/name.ext, for a name without '/'. */
  lemma {:induction false} CellBasename(dir: string, n: string, ext: string)
    requires ext == ".png" || ext == ".npz"
    requires '/' !in n
    ensures Basename(dir + "/" + n + ext) == n + ext
  {
    assert '/' !in n + ext;
    assert dir + "/" + (n + ext) == dir + "/" + n + ext;
    LastSeparator(dir, n + ext);
  }

  /** The fields check_mapsize reads from dir/name.ext are the fields of the name itself. */
  lemma {:induction false} FieldsOfStored(dir: string, n: string, ext: string)
    requires ext == ".png" || ext == ".npz"
    requires DotsBeforeDigits(n) && '/' !in n
    ensures NameFields(dir + "/" + n + ext, ext) == Split(n, '_')
  {
    CellBasename(dir, n, ext);
    RemoveSuffix(n, ext);
  }

  /** A name that does not start with '.', stored with one of the two suffixes: the first file's suffix is recognised. */
  lemma {:induction false} SuffixRecognised(dir: string, n: string, ext: string)
    requires ext == ".png" || ext == ".npz"
    requires '/' !in n && |n| > 0 && n[0] != '.'
    ensures Stripped(dir + "/" + n + ext) == ext
  {
    CellBasename(dir, n, ext);
    var base := n + ext;
    LastDot(n, ext);
    assert base[0] != '.';
    assert base[|n|..] == ext;
    PngTest(ext);
  }

  /**
   * What check_mapsize reads back from a map-cell file dir/X_Y.png or dir/X_Y.npz
   * written under the cell name: the extension is recognised, removing it and
   * splitting on '_' gives the two coordinate parts, and they parse to the cell's
   * coordinates in metres.
   */
  lemma {:induction false} CellFileRoundTrip(dir: string, x: int, y: int, ext: string)
    requires ext == ".png" || ext == ".npz"
    ensures Stripped(dir + "/" + CoordName(x, y) + ext) == ext
    ensures NameFields(dir + "/" + CoordName(x, y) + ext, ext) == [CoordPart(x), CoordPart(y)]
    ensures ParseFields(NameFields(dir + "/" + CoordName(x, y) + ext, ext)) == Some([x as real / 100.0, y as real / 100.0])
  {
    var n := CoordName(x, y);
    CoordNameChars(x, y);
    SuffixRecognised(dir, n, ext);
    FieldsOfStored(dir, n, ext);
    CoordNameRoundTrip(x, y);
  }
}
