/**
 * The overlap-based sensor model: each particle is rounded to a map cell, the
 * cells that have a persisted feature volume are requested once each from the
 * overlap network, and every particle's weight is multiplied by the overlap of
 * its cell (and optionally a Gaussian factor on its heading error). A one-shot
 * convergence step can then cut the population down to its heaviest
 * particles, and the weights are finally divided by their maximum.
 *
 * The functions below state what one call computes; the class SensorModel is
 * the object the localiser holds, and its method UpdateWeights does the same
 * work step by step on the caller's array and is proved to meet them.
 */
module SensorModelOverlap {
  import opened Grid
  import opened Interning
  import opened Names
  import opened Particles
  import opened Tables

  /**
   * What the overlap network returns for a request list, one entry per requested
   * cell in request order: an overlap, and the bin (0..359) of its yaw estimate.
   */
  datatype Scores = Scores(overlaps: seq<real>, yawBins: seq<int>)

  /** The settings fixed when the sensor model is built. */
  datatype Config = Config(
    box: Box,                  // [x_min, x_max] x [y_min, y_max], the rounded map size in cells
    offset: int,               // safety margin to the border, in cells
    resolution: real,          // metres per cell
    useYaw: bool,
    yawSigma: real,            // radians
    numReduced: int,
    convergeThres: int,
    minOverlapForAngle: real,
    defaultWeight: real,       // multiplier of a particle whose cell was not requested
    invalidWeight: real)       // multiplier of a particle outside the map

  /** The table can be allocated and the margin is not negative. */
  predicate ValidConfig(cfg: Config)
  {
    cfg.box.Rows() >= 0 && cfg.box.Cols() >= 0 && cfg.offset >= 0
  }

  /** How one call of the weight update ends. */
  datatype Outcome =
    | Skipped          // no particle is on a cell with a feature volume: nothing changes
    | Updated          // weights multiplied (population possibly reduced) and divided by their maximum
    | EmptyPopulation  // the reduction left no particle, and the maximum of an empty weight column is undefined
    | ZeroMaxWeight    // the largest weight is 0, so the division has no defined result
    | NotANumber       // a yaw factor was 0/0 (yaw_sigma 0, heading error 0), and np.max spreads the NaN to every weight
  {
    /** The call leaves no defined weights: np.max raised, or every weight is NaN. */
    predicate Stops() { EmptyPopulation? || ZeroMaxWeight? || NotANumber? }
  }

  /** The state one call leaves behind: the convergence flag, the returned population and the outcome. */
  datatype Update = Update(converged: bool, particles: seq<Particle>, outcome: Outcome)

  function Abs(r: real): real { if r < 0.0 then -r else r }

  function Min(a: real, b: real): real { if a <= b then a else b }

  /** The cell a particle is on: int(round(x)), int(round(y)). */
  function CellOf(p: Particle): Cell
  {
    Cell(Round(p.x), Round(p.y))
  }

  /** os.path.exists(os.path.join(map_folder, file_name)) for a folder holding the given names. */
  function VolumeTest(cfg: Config, files: set<string>): Cell -> bool
  {
    c => CellName(c, cfg.resolution) + ".npz" in files
  }

  /** Every cell with a feature volume lies inside the map; otherwise its table index would fall outside the table. */
  ghost predicate VolumesInsideMap(cfg: Config, has: Cell -> bool)
  {
    forall c :: has(c) ==> cfg.box.Contains(c)
  }

  /** The network answers every request list with one overlap (and, with yaw, one yaw bin) per cell. */
  ghost predicate ScorerComplete(cfg: Config, scorer: (nat, seq<Cell>) -> Scores)
  {
    forall frame, cells :: |scorer(frame, cells).overlaps| == |cells|
      && (cfg.useYaw ==> |scorer(frame, cells).yawBins| == |cells|)
  }

  /** The heading of yaw bin b: -(b - 180) degrees, in radians. */
  function YawOf(b: int): real
  {
    -(b as real - 180.0) * Pi / 180.0
  }

  /** The cells of the particles that have a feature volume, in particle order, with repeats. */
  function KnownCells(has: Cell -> bool, ps: seq<Particle>): seq<Cell>
  {
    if ps == [] then []
    else
      var c := CellOf(ps[|ps| - 1]);
      KnownCells(has, ps[..|ps| - 1]) + (if has(c) then [c] else [])
  }

  /** infer_coords: the particles' cells that have a feature volume, each appended when first met. */
  function Requests(has: Cell -> bool, ps: seq<Particle>): seq<Cell>
  {
    if ps == [] then []
    else
      var before := Requests(has, ps[..|ps| - 1]);
      var c := CellOf(ps[|ps| - 1]);
      if has(c) && c !in before then before + [c] else before
  }

  /** The unrounded position lies in [x_min+offset, x_max-offset] x [y_min+offset, y_max-offset]. */
  predicate Inside(cfg: Config, p: Particle)
  {
    !(p.x < (cfg.box.xMin + cfg.offset) as real || p.x > (cfg.box.xMax - cfg.offset) as real
      || p.y < (cfg.box.yMin + cfg.offset) as real || p.y > (cfg.box.yMax - cfg.offset) as real)
  }

  /** all_overlaps[idx]: the overlap multiplier of one particle. */
  function OverlapMultiplier(cfg: Config, reqs: seq<Cell>, scores: Scores, p: Particle): real
    requires |scores.overlaps| == |reqs|
  {
    if !Inside(cfg, p) then cfg.invalidWeight
    else if CellOf(p) !in reqs then cfg.defaultWeight
    else scores.overlaps[IndexOf(reqs, CellOf(p))]
  }

  /** The circular distance between two headings. */
  function AngularDistance(a: real, b: real): real
  {
    Min(Abs(a - b), 2.0 * Pi - Abs(a - b))
  }

  /**
   * The Gaussian likelihood of a heading error delta with width sigma. With
   * sigma 0 numpy divides by zero: a non-zero error gives exp(-inf) = 0, and an
   * error of 0 gives NaN, which YawUndefined flags and for which 0 stands in here.
   */
  function YawLikelihood(exp: real -> real, delta: real, sigma: real): real
  {
    if sigma != 0.0 then exp(-0.5 * delta * delta / (sigma * sigma)) else 0.0
  }

  /** all_yaws[idx]: the yaw multiplier of one particle (used only with use_yaw). */
  function YawMultiplier(cfg: Config, reqs: seq<Cell>, scores: Scores, exp: real -> real, p: Particle): real
    requires |scores.overlaps| == |reqs| && |scores.yawBins| == |reqs|
  {
    if Inside(cfg, p) && CellOf(p) in reqs && scores.overlaps[IndexOf(reqs, CellOf(p))] >= cfg.minOverlapForAngle then
      YawLikelihood(exp, AngularDistance(YawOf(scores.yawBins[IndexOf(reqs, CellOf(p))]), p.theta), cfg.yawSigma)
    else cfg.defaultWeight
  }

  /** numpy computes the yaw factor of p as 0/0: with yaw, the Gaussian applies, sigma is 0 and so is the heading error. */
  predicate YawUndefined(cfg: Config, reqs: seq<Cell>, scores: Scores, p: Particle)
    requires |scores.overlaps| == |reqs| && (cfg.useYaw ==> |scores.yawBins| == |reqs|)
  {
    cfg.useYaw && cfg.yawSigma == 0.0
    && Inside(cfg, p) && CellOf(p) in reqs && scores.overlaps[IndexOf(reqs, CellOf(p))] >= cfg.minOverlapForAngle
    && AngularDistance(YawOf(scores.yawBins[IndexOf(reqs, CellOf(p))]), p.theta) == 0.0
  }

  /** Some particle's weight becomes NaN in the multiplication step. */
  predicate AnyYawUndefined(cfg: Config, reqs: seq<Cell>, scores: Scores, ps: seq<Particle>)
    requires |scores.overlaps| == |reqs| && (cfg.useYaw ==> |scores.yawBins| == |reqs|)
  {
    exists i :: 0 <= i < |ps| && YawUndefined(cfg, reqs, scores, ps[i])
  }

  /** One more particle makes the multiplication step produce a NaN iff an earlier one did or its own yaw factor is 0/0. */
  lemma AnyYawUndefinedSnoc(cfg: Config, reqs: seq<Cell>, scores: Scores, ps: seq<Particle>, i: int)
    requires |scores.overlaps| == |reqs| && (cfg.useYaw ==> |scores.yawBins| == |reqs|)
    requires 0 <= i < |ps|
    ensures AnyYawUndefined(cfg, reqs, scores, ps[..i + 1])
      == (AnyYawUndefined(cfg, reqs, scores, ps[..i]) || YawUndefined(cfg, reqs, scores, ps[i]))
  {
    var a := ps[..i + 1];
    assert a[i] == ps[i];
    assert forall j :: 0 <= j < i ==> a[j] == ps[..i][j];
  }

  /** The weight column multiplied by the overlap (and yaw) multipliers; poses untouched. */
  function Reweighted(cfg: Config, reqs: seq<Cell>, scores: Scores, exp: real -> real, ps: seq<Particle>): (r: seq<Particle>)
    requires |scores.overlaps| == |reqs|
    requires cfg.useYaw ==> |scores.yawBins| == |reqs|
    ensures SamePoses(r, ps)
  {
    seq(|ps|, i requires 0 <= i < |ps| =>
      var p := ps[i];
      if cfg.useYaw then p.(weight := p.weight * OverlapMultiplier(cfg, reqs, scores, p) * YawMultiplier(cfg, reqs, scores, exp, p))
      else p.(weight := p.weight * OverlapMultiplier(cfg, reqs, scores, p)))
  }

  /** The population after the multiplication step of one call. */
  function Multiplied(cfg: Config, has: Cell -> bool, scorer: (nat, seq<Cell>) -> Scores, exp: real -> real,
                      ps: seq<Particle>, frame: nat): seq<Particle>
    requires ValidConfig(cfg) && ScorerComplete(cfg, scorer)
  {
    var reqs := Requests(has, ps);
    Reweighted(cfg, reqs, scorer(frame, reqs), exp, ps)
  }

  /**
   * len(overlap_lut[overlap_lut > 0]) once cells were requested: the table holds
   * 0..k-1 for the k requested cells, so the count misses the first of them.
   */
  function OccupiedCount(reqs: seq<Cell>): int
  {
    |reqs| - 1
  }

  /** The convergence step runs: cells were requested, too few are occupied, and it has not run before. */
  predicate Fires(cfg: Config, has: Cell -> bool, converged: bool, ps: seq<Particle>)
  {
    var reqs := Requests(has, ps);
    reqs != [] && OccupiedCount(reqs) < cfg.convergeThres && !converged
  }

  /** The convergence step also cuts the population: `not num_reduced > len(particles) or num_reduced < 0`. */
  predicate Reduces(cfg: Config, has: Cell -> bool, converged: bool, ps: seq<Particle>)
  {
    Fires(cfg, has, converged, ps) && (!(cfg.numReduced > |ps|) || cfg.numReduced < 0)
  }

  predicate Descending(s: seq<Particle>)
  {
    forall i, j :: 0 <= i < j < |s| ==> s[i].weight >= s[j].weight
  }

  /** Insert p into a population sorted by descending weight. */
  function InsertByWeight(p: Particle, s: seq<Particle>): (r: seq<Particle>)
    requires Descending(s)
    ensures |r| == |s| + 1
    ensures r[0] == p || (s != [] && r[0] == s[0])
    ensures Descending(r)
    ensures multiset(r) == multiset(s) + multiset{p}
  {
    if s == [] then [p]
    else if p.weight >= s[0].weight then
      DescendingCons(p, s);
      [p] + s
    else
      var rest := InsertByWeight(p, s[1..]);
      InsertBehindHead(p, s, rest);
      [s[0]] + rest
  }

  /** Keeping the head in front of the tail's insertion result inserts p into the whole population. */
  lemma InsertBehindHead(p: Particle, s: seq<Particle>, rest: seq<Particle>)
    requires Descending(s) && s != [] && p.weight < s[0].weight
    requires Descending(rest) && rest != [] && (rest[0] == p || (|s| > 1 && rest[0] == s[1]))
    requires multiset(rest) == multiset(s[1..]) + multiset{p}
    ensures Descending([s[0]] + rest)
    ensures multiset([s[0]] + rest) == multiset(s) + multiset{p}
  {
    assert s == [s[0]] + s[1..];
    DescendingCons(s[0], rest);
  }

  /** A particle at least as heavy as the head of a descending population can go in front of it. */
  lemma {:induction false} DescendingCons(p: Particle, s: seq<Particle>)
    requires Descending(s) && (s == [] || p.weight >= s[0].weight)
    ensures Descending([p] + s)
  {
    forall i, j | 0 <= i < j < |s| + 1
      ensures ([p] + s)[i].weight >= ([p] + s)[j].weight
    {
      if i > 0 {
        assert ([p] + s)[i] == s[i - 1];
      } else {
        assert s[0].weight >= s[j - 1].weight;
      }
    }
  }

  /** The population in the order of np.argsort(weights)[::-1]: heaviest first, same particles. */
  function SortByWeight(s: seq<Particle>): (r: seq<Particle>)
    ensures |r| == |s|
    ensures Descending(r)
    ensures multiset(r) == multiset(s)
  {
    if s == [] then []
    else
      assert s == [s[0]] + s[1..];
      InsertByWeight(s[0], SortByWeight(s[1..]))
  }

  /** new_particle[idxes[:num_reduced]]: the heaviest particles, heaviest first. */
  function Reduce(ps: seq<Particle>, m: int): seq<Particle>
  {
    SortByWeight(ps)[..SliceEnd(m, |ps|)]
  }

  /** Every weight divided by the largest one. */
  function Normalize(ps: seq<Particle>): (r: seq<Particle>)
    requires |ps| > 0 && MaxWeight(ps) != 0.0
    ensures SamePoses(r, ps)
  {
    var m := MaxWeight(ps);
    seq(|ps|, i requires 0 <= i < |ps| => ps[i].(weight := ps[i].weight / m))
  }

  /** One call of update_weights, given the convergence flag before it. */
  function UpdateWeightsSpec(cfg: Config, has: Cell -> bool, scorer: (nat, seq<Cell>) -> Scores, exp: real -> real,
                             converged: bool, ps: seq<Particle>, frame: nat): Update
    requires ValidConfig(cfg) && ScorerComplete(cfg, scorer)
  {
    if Requests(has, ps) == [] then Update(converged, ps, Skipped)
    else
      var weighted := Multiplied(cfg, has, scorer, exp, ps, frame);
      var kept := if Reduces(cfg, has, converged, ps) then Reduce(weighted, cfg.numReduced) else weighted;
      var flag := converged || Fires(cfg, has, converged, ps);
      if kept == [] then Update(flag, kept, EmptyPopulation)
      else if AnyYawUndefined(cfg, Requests(has, ps), scorer(frame, Requests(has, ps)), ps) then Update(flag, kept, NotANumber)
      else if MaxWeight(kept) == 0.0 then Update(flag, kept, ZeroMaxWeight)
      else Update(flag, Normalize(kept), Updated)
  }

  // ---------------------------------------------------------------------------
  // Properties of one call
  // ---------------------------------------------------------------------------

  /** The cells with repeats are exactly the particles' cells that have a feature volume. */
  lemma {:induction false} KnownCellsMembers(has: Cell -> bool, ps: seq<Particle>, c: Cell)
    ensures c in KnownCells(has, ps) <==>
      has(c) && exists i :: 0 <= i < |ps| && CellOf(ps[i]) == c
  {
    if ps != [] {
      var n := |ps| - 1;
      var init := ps[..n];
      var last := CellOf(ps[n]);
      KnownCellsMembers(has, init, c);
      assert KnownCells(has, ps) == KnownCells(has, init) + (if has(last) then [last] else []);
      SomeParticleOnSnoc(ps, init, c);
    }
  }

  /** A cell is under one of the particles iff it is under one of all but the last, or under the last. */
  lemma SomeParticleOnSnoc(ps: seq<Particle>, init: seq<Particle>, c: Cell)
    requires ps != [] && init == ps[..|ps| - 1]
    ensures (exists i :: 0 <= i < |ps| && CellOf(ps[i]) == c) <==>
      (exists i :: 0 <= i < |init| && CellOf(init[i]) == c) || CellOf(ps[|ps| - 1]) == c
  {
    if exists i :: 0 <= i < |ps| && CellOf(ps[i]) == c {
      var i :| 0 <= i < |ps| && CellOf(ps[i]) == c;
      if i < |init| {
        assert CellOf(init[i]) == c;
      }
    }
    if exists i :: 0 <= i < |init| && CellOf(init[i]) == c {
      var i :| 0 <= i < |init| && CellOf(init[i]) == c;
      assert CellOf(ps[i]) == c;
    }
  }

  /** The request list is the list of known cells with repeats removed, in order of first appearance. */
  lemma {:induction false} RequestsAreDistinctCells(has: Cell -> bool, ps: seq<Particle>)
    ensures Requests(has, ps) == Distinct(KnownCells(has, ps))
  {
    if ps != [] {
      var n := |ps| - 1;
      var c := CellOf(ps[n]);
      var known := KnownCells(has, ps[..n]);
      RequestsAreDistinctCells(has, ps[..n]);
      DistinctMembers(known, c);
      if has(c) {
        DistinctSnoc(known, c);
      } else {
        assert known + [] == known;
      }
    }
  }

  /**
   * The request list: a cell without a feature volume is never requested; every
   * particle's cell that has one is requested, exactly once; nothing else is.
   */
  lemma {:induction false} RequestedCells(has: Cell -> bool, ps: seq<Particle>)
    ensures NoDuplicates(Requests(has, ps))
    ensures forall i :: 0 <= i < |ps| ==>
      (CellOf(ps[i]) in Requests(has, ps) <==> has(CellOf(ps[i])))
    ensures forall c :: c in Requests(has, ps) ==>
      has(c) && exists i :: 0 <= i < |ps| && CellOf(ps[i]) == c
  {
    var known := KnownCells(has, ps);
    RequestsAreDistinctCells(has, ps);
    forall i | 0 <= i < |ps|
      ensures CellOf(ps[i]) in Requests(has, ps) <==> has(CellOf(ps[i]))
    {
      KnownCellsMembers(has, ps, CellOf(ps[i]));
      DistinctMembers(known, CellOf(ps[i]));
    }
    forall c | c in Requests(has, ps)
      ensures has(c) && exists i :: 0 <= i < |ps| && CellOf(ps[i]) == c
    {
      KnownCellsMembers(has, ps, c);
      DistinctMembers(known, c);
    }
  }

  /** The offset guard keeps the rounded cell of a particle inside the map, so its table lookup is in range. */
  lemma {:induction false} InsideOnMap(cfg: Config, p: Particle)
    requires cfg.offset >= 0 && Inside(cfg, p)
    ensures cfg.box.Contains(CellOf(p))
  {
    RoundBetween((cfg.box.xMin + cfg.offset) as real, p.x, (cfg.box.xMax - cfg.offset) as real);
    RoundBetween((cfg.box.yMin + cfg.offset) as real, p.y, (cfg.box.yMax - cfg.offset) as real);
    RoundOfInteger(cfg.box.xMin + cfg.offset);
    RoundOfInteger(cfg.box.xMax - cfg.offset);
    RoundOfInteger(cfg.box.yMin + cfg.offset);
    RoundOfInteger(cfg.box.yMax - cfg.offset);
  }

  /**
   * The overlap multiplier: invalid_weight outside the map even when the cell was
   * requested, default_weight inside the map when the cell has no feature volume,
   * otherwise the overlap the network returned for that cell.
   */
  lemma {:induction false} OverlapMultiplierCases(cfg: Config, has: Cell -> bool, scores: Scores, ps: seq<Particle>, i: nat)
    requires i < |ps|
    requires |scores.overlaps| == |Requests(has, ps)|
    ensures var reqs := Requests(has, ps);
      var m := OverlapMultiplier(cfg, reqs, scores, ps[i]);
      && (!Inside(cfg, ps[i]) ==> m == cfg.invalidWeight)
      && (Inside(cfg, ps[i]) && !has(CellOf(ps[i])) ==> m == cfg.defaultWeight)
      && (Inside(cfg, ps[i]) && has(CellOf(ps[i])) ==>
            0 <= Slot(reqs, CellOf(ps[i])) && m == scores.overlaps[Slot(reqs, CellOf(ps[i]))])
  {
    RequestedCells(has, ps);
  }

  /**
   * The yaw multiplier: the Gaussian of the heading error when the particle is
   * inside the map on a requested cell whose overlap reaches min_overlap_for_angle,
   * and default_weight in every other case.
   */
  lemma {:induction false} YawMultiplierCases(cfg: Config, has: Cell -> bool, scores: Scores, exp: real -> real, ps: seq<Particle>, i: nat)
    requires i < |ps|
    requires |scores.overlaps| == |Requests(has, ps)| == |scores.yawBins|
    ensures var reqs := Requests(has, ps);
      var c := CellOf(ps[i]);
      var m := YawMultiplier(cfg, reqs, scores, exp, ps[i]);
      && (!(Inside(cfg, ps[i]) && has(c)) ==> m == cfg.defaultWeight)
      && (Inside(cfg, ps[i]) && has(c) ==>
            && 0 <= Slot(reqs, c)
            && (scores.overlaps[Slot(reqs, c)] < cfg.minOverlapForAngle ==> m == cfg.defaultWeight)
            && (scores.overlaps[Slot(reqs, c)] >= cfg.minOverlapForAngle ==>
                  m == YawLikelihood(exp, AngularDistance(YawOf(scores.yawBins[Slot(reqs, c)]), ps[i].theta), cfg.yawSigma))
            && (scores.overlaps[Slot(reqs, c)] >= cfg.minOverlapForAngle && cfg.yawSigma == 0.0 ==> m == 0.0))
  {
    RequestedCells(has, ps);
  }

  /**
   * NaN weights come only from a yaw Gaussian of width 0 met at a heading error
   * of exactly 0, and such a NaN reaches the result whenever a particle is kept.
   */
  lemma {:induction false} NotANumberCases(cfg: Config, has: Cell -> bool, scorer: (nat, seq<Cell>) -> Scores, exp: real -> real,
                                           converged: bool, ps: seq<Particle>, frame: nat)
    requires ValidConfig(cfg) && ScorerComplete(cfg, scorer)
    ensures var u := UpdateWeightsSpec(cfg, has, scorer, exp, converged, ps, frame);
      var reqs := Requests(has, ps);
      && (u.outcome == NotANumber <==> reqs != [] && u.particles != [] && AnyYawUndefined(cfg, reqs, scorer(frame, reqs), ps))
      && (u.outcome == NotANumber ==> cfg.useYaw && cfg.yawSigma == 0.0)
  {
    var reqs := Requests(has, ps);
    if reqs != [] && AnyYawUndefined(cfg, reqs, scorer(frame, reqs), ps) {
      var i :| 0 <= i < |ps| && YawUndefined(cfg, reqs, scorer(frame, reqs), ps[i]);
    }
  }

  /** The yaw bins 0..359 cover the headings (-pi, pi], bin 180 being straight ahead. */
  lemma {:induction false} YawBinRange(b: int)
    requires 0 <= b < 360
    ensures -Pi < YawOf(b) <= Pi
    ensures YawOf(b) == 0.0 <==> b == 180
  {
  }

  /** The circular heading distance lies in [0, pi] for headings at most 2 pi apart. */
  lemma {:induction false} AngularDistanceRange(a: real, b: real)
    requires Abs(a - b) <= 2.0 * Pi
    ensures 0.0 <= AngularDistance(a, b) <= Pi
  {
  }

  /** If no particle is on a cell with a feature volume, the call changes nothing: no multiplication, no convergence step, no normalisation. */
  lemma {:induction false} SkippedIffNothingRequested(cfg: Config, has: Cell -> bool, scorer: (nat, seq<Cell>) -> Scores, exp: real -> real,
                                   converged: bool, ps: seq<Particle>, frame: nat)
    requires ValidConfig(cfg) && ScorerComplete(cfg, scorer)
    ensures var u := UpdateWeightsSpec(cfg, has, scorer, exp, converged, ps, frame);
      (u.outcome == Skipped <==> forall i :: 0 <= i < |ps| ==> !has(CellOf(ps[i])))
      && (u.outcome == Skipped ==> u.particles == ps && u.converged == converged)
  {
    RequestedCells(has, ps);
    var reqs := Requests(has, ps);
    if reqs != [] {
      assert reqs[0] in reqs;
    }
  }

  /**
   * Convergence is declared once and for all: the flag is set exactly when it was
   * set before or when cells were requested and fewer than converge_thres of them
   * (other than the first) are occupied; once set, the population is never cut again.
   */
  lemma {:induction false} ConvergenceOneShot(cfg: Config, has: Cell -> bool, scorer: (nat, seq<Cell>) -> Scores, exp: real -> real,
                           converged: bool, ps: seq<Particle>, frame: nat)
    requires ValidConfig(cfg) && ScorerComplete(cfg, scorer)
    ensures var u := UpdateWeightsSpec(cfg, has, scorer, exp, converged, ps, frame);
      var reqs := Requests(has, ps);
      && (u.converged <==> converged || (reqs != [] && |reqs| - 1 < cfg.convergeThres))
      && (converged ==> SamePoses(u.particles, ps))
  {
    var reqs := Requests(has, ps);
    if reqs != [] {
      var weighted := Multiplied(cfg, has, scorer, exp, ps, frame);
      assert SamePoses(weighted, ps);
    }
  }

  /** Without the reduction no particle is dropped or moved: only the weights change. */
  lemma {:induction false} PosesKept(cfg: Config, has: Cell -> bool, scorer: (nat, seq<Cell>) -> Scores, exp: real -> real,
                  converged: bool, ps: seq<Particle>, frame: nat)
    requires ValidConfig(cfg) && ScorerComplete(cfg, scorer)
    requires !Reduces(cfg, has, converged, ps)
    ensures SamePoses(UpdateWeightsSpec(cfg, has, scorer, exp, converged, ps, frame).particles, ps)
  {
    if Requests(has, ps) != [] {
      var weighted := Multiplied(cfg, has, scorer, exp, ps, frame);
      assert SamePoses(weighted, ps);
    }
  }

  /**
   * The reduction keeps the heaviest particles: what it keeps and what it drops
   * together make up the population, it keeps as many as the slice [:num_reduced]
   * selects, heaviest first, and no dropped particle outweighs a kept one.
   */
  lemma {:induction false} ReductionKeepsHeaviest(ps: seq<Particle>, m: int)
    ensures var s := SortByWeight(ps);
      var e := SliceEnd(m, |ps|);
      && Reduce(ps, m) == s[..e]
      && |Reduce(ps, m)| == e
      && multiset(s[..e]) + multiset(s[e..]) == multiset(ps)
      && Descending(s[..e])
      && (forall i, j :: 0 <= i < e <= j < |s| ==> s[i].weight >= s[j].weight)
      && (forall i :: 0 <= i < e ==> s[i] in ps)
  {
    var s := SortByWeight(ps);
    var e := SliceEnd(m, |ps|);
    assert s == s[..e] + s[e..];
    forall i, j | 0 <= i < j < e
      ensures s[..e][i].weight >= s[..e][j].weight
    {
      assert s[..e][i] == s[i] && s[..e][j] == s[j];
    }
    forall i | 0 <= i < e
      ensures s[i] in ps
    {
      assert s[i] in multiset(s);
    }
  }

  /** Normalisation of non-negative weights: every weight lands in [0, 1] and the heaviest particle gets exactly 1. */
  lemma {:induction false} NormalizeBounds(ps: seq<Particle>)
    requires |ps| > 0 && MaxWeight(ps) != 0.0
    requires NonNegativeWeights(ps)
    ensures forall i :: 0 <= i < |ps| ==> 0.0 <= Normalize(ps)[i].weight <= 1.0
    ensures exists i :: 0 <= i < |ps| && Normalize(ps)[i].weight == 1.0
  {
    var m := MaxWeight(ps);
    assert m >= ps[0].weight >= 0.0;
    forall i | 0 <= i < |ps|
      ensures 0.0 <= Normalize(ps)[i].weight <= 1.0
    {
      DivideBelow(ps[i].weight, m);
    }
    var k :| 0 <= k < |ps| && ps[k].weight == m;
    DivideSelf(m);
    assert Normalize(ps)[k].weight == m / m;
  }

  lemma {:induction false} DivideSelf(m: real)
    requires m != 0.0
    ensures m / m == 1.0
  {
  }

  lemma {:induction false} DivideBelow(w: real, m: real)
    requires 0.0 <= w <= m && m > 0.0
    ensures 0.0 <= w / m <= 1.0
  {
    assert w / m * m == w;
  }

  predicate NonNegativeWeights(ps: seq<Particle>)
  {
    forall i :: 0 <= i < |ps| ==> ps[i].weight >= 0.0
  }

  /** Non-negative weights times non-negative multipliers stay non-negative. */
  lemma {:induction false} ReweightedNonNegative(cfg: Config, reqs: seq<Cell>, scores: Scores, exp: real -> real, ps: seq<Particle>)
    requires |scores.overlaps| == |reqs|
    requires cfg.useYaw ==> |scores.yawBins| == |reqs|
    requires NonNegativeWeights(ps) && cfg.defaultWeight >= 0.0 && cfg.invalidWeight >= 0.0
    requires forall k :: 0 <= k < |scores.overlaps| ==> scores.overlaps[k] >= 0.0
    requires forall x :: exp(x) >= 0.0
    ensures NonNegativeWeights(Reweighted(cfg, reqs, scores, exp, ps))
  {
    var r := Reweighted(cfg, reqs, scores, exp, ps);
    forall i | 0 <= i < |ps|
      ensures r[i].weight >= 0.0
    {
      var p := ps[i];
      var o := OverlapMultiplier(cfg, reqs, scores, p);
      assert o >= 0.0;
      ProductNonNegative(p.weight, o);
      if cfg.useYaw {
        var y := YawMultiplier(cfg, reqs, scores, exp, p);
        assert y >= 0.0;
        ProductNonNegative(p.weight * o, y);
        assert r[i].weight == p.weight * o * y;
      } else {
        assert r[i].weight == p.weight * o;
      }
    }
  }

  lemma {:induction false} ProductNonNegative(a: real, b: real)
    requires a >= 0.0 && b >= 0.0
    ensures a * b >= 0.0
  {
  }

  /** The reduction only keeps particles of the population, so it keeps weights non-negative. */
  lemma {:induction false} ReducedNonNegative(ps: seq<Particle>, m: int)
    requires NonNegativeWeights(ps)
    ensures NonNegativeWeights(Reduce(ps, m))
  {
    ReductionKeepsHeaviest(ps, m);
  }

  /** What the last step of a call makes of a non-negative population. */
  predicate WeightsSettled(kept: seq<Particle>, u: Update)
  {
    && (u.outcome == Updated ==>
          (forall i :: 0 <= i < |u.particles| ==> 0.0 <= u.particles[i].weight <= 1.0)
          && exists i :: 0 <= i < |u.particles| && u.particles[i].weight == 1.0)
    && (u.outcome == ZeroMaxWeight ==> forall i :: 0 <= i < |u.particles| ==> u.particles[i].weight == 0.0)
  }

  lemma {:induction false} FinalStepSettles(kept: seq<Particle>, flag: bool)
    requires NonNegativeWeights(kept)
    ensures kept != [] && MaxWeight(kept) == 0.0 ==> WeightsSettled(kept, Update(flag, kept, ZeroMaxWeight))
    ensures kept != [] && MaxWeight(kept) != 0.0 ==> WeightsSettled(kept, Update(flag, Normalize(kept), Updated))
  {
    if kept != [] && MaxWeight(kept) != 0.0 {
      NormalizeBounds(kept);
    }
  }

  /**
   * With non-negative weights, overlaps and multipliers, a call that updates leaves
   * every weight in [0, 1] with the heaviest particle at 1, and a call that meets a
   * zero maximum found every weight at 0.
   */
  lemma {:induction false} UpdatedWeightsInUnitInterval(cfg: Config, has: Cell -> bool, scorer: (nat, seq<Cell>) -> Scores, exp: real -> real,
                                     converged: bool, ps: seq<Particle>, frame: nat)
    requires ValidConfig(cfg) && ScorerComplete(cfg, scorer)
    requires NonNegativeWeights(ps) && cfg.defaultWeight >= 0.0 && cfg.invalidWeight >= 0.0
    requires forall k :: 0 <= k < |scorer(frame, Requests(has, ps)).overlaps| ==>
      scorer(frame, Requests(has, ps)).overlaps[k] >= 0.0
    requires forall x :: exp(x) >= 0.0
    ensures WeightsSettled(ps, UpdateWeightsSpec(cfg, has, scorer, exp, converged, ps, frame))
  {
    var reqs := Requests(has, ps);
    if reqs != [] {
      var weighted := Multiplied(cfg, has, scorer, exp, ps, frame);
      ReweightedNonNegative(cfg, reqs, scorer(frame, reqs), exp, ps);
      var kept := if Reduces(cfg, has, converged, ps) then Reduce(weighted, cfg.numReduced) else weighted;
      ReducedNonNegative(weighted, cfg.numReduced);
      FinalStepSettles(kept, converged || Fires(cfg, has, converged, ps));
    }
  }

  /** new_particle[np.argsort(weights)[::-1][:m]]: a new array of the heaviest particles. */
  method Reduced(particles: array<Particle>, m: int) returns (result: array<Particle>)
    ensures fresh(result)
    ensures result[..] == Reduce(particles[..], m)
  {
    var sorted := SortByWeight(particles[..]);
    var e := SliceEnd(m, particles.Length);
    result := new Particle[e](i requires 0 <= i < e => sorted[i]);
  }

  /** new_particle[:, 3] /= np.max(new_particle[:, 3]), in place. */
  method NormalizeInPlace(a: array<Particle>)
    requires a.Length > 0 && MaxWeight(a[..]) != 0.0
    modifies a
    ensures a[..] == Normalize(old(a[..]))
  {
    var m := MaxWeight(a[..]);
    forall i | 0 <= i < a.Length {
      a[i] := a[i].(weight := a[i].weight / m);
    }
  }

  /** The sensor model object the localiser holds between frames. */
  class SensorModel {
    const config: Config
    const mapFiles: set<string>                    // names of the feature volumes in the map folder
    const hasVolume: Cell -> bool                  // the existence check of a cell's feature volume
    const scorer: (nat, seq<Cell>) -> Scores       // the overlap network, per frame and request list
    var isConverged: bool

    ghost predicate Valid()
    {
      ValidConfig(config) && VolumesInsideMap(config, hasVolume) && ScorerComplete(config, scorer)
    }

    /** The settings of __init__: the map size rounded to cells, a margin of one cell, sigma in radians. */
    static function MakeConfig(mapSize: seq<real>, resolution: real, useYaw: bool, yawSigmaDegrees: real,
                               numReduced: int, convergeThres: int, minOverlapForAngle: real): Config
      requires |mapSize| == 4
    {
      Config(Box(Round(mapSize[0]), Round(mapSize[1]), Round(mapSize[2]), Round(mapSize[3])),
             1, resolution, useYaw, yawSigmaDegrees * Pi / 180.0, numReduced, convergeThres,
             minOverlapForAngle, 0.1, 0.001)
    }

    constructor (mapSize: seq<real>, resolution: real, useYaw: bool, yawSigmaDegrees: real,
                 numReduced: int, convergeThres: int, minOverlapForAngle: real,
                 mapFiles: set<string>, scorer: (nat, seq<Cell>) -> Scores)
      requires |mapSize| == 4
      requires ValidConfig(MakeConfig(mapSize, resolution, useYaw, yawSigmaDegrees, numReduced, convergeThres, minOverlapForAngle))
      requires VolumesInsideMap(MakeConfig(mapSize, resolution, useYaw, yawSigmaDegrees, numReduced, convergeThres, minOverlapForAngle), VolumeTest(MakeConfig(mapSize, resolution, useYaw, yawSigmaDegrees, numReduced, convergeThres, minOverlapForAngle), mapFiles))
      requires ScorerComplete(MakeConfig(mapSize, resolution, useYaw, yawSigmaDegrees, numReduced, convergeThres, minOverlapForAngle), scorer)
      ensures config == MakeConfig(mapSize, resolution, useYaw, yawSigmaDegrees, numReduced, convergeThres, minOverlapForAngle)
      ensures this.mapFiles == mapFiles && this.scorer == scorer
      ensures hasVolume == VolumeTest(config, mapFiles)
      ensures !isConverged
      ensures Valid()
    {
      config := MakeConfig(mapSize, resolution, useYaw, yawSigmaDegrees, numReduced, convergeThres, minOverlapForAngle);
      this.mapFiles := mapFiles;
      hasVolume := VolumeTest(MakeConfig(mapSize, resolution, useYaw, yawSigmaDegrees, numReduced, convergeThres, minOverlapForAngle), mapFiles);
      this.scorer := scorer;
      isConverged := false;
    }

    /**
     * The first pass of update_weights: the lookup table filled with -1, then each
     * particle whose cell has a feature volume and is not in the table yet gets the
     * next dense index and is appended to the request list.
     */
    method CollectRequests(particles: array<Particle>) returns (lut: array2<int>, reqs: seq<Cell>)
      requires Valid()
      ensures fresh(lut)
      ensures reqs == Requests(hasVolume, particles[..])
      ensures TableHolds(config.box, lut, reqs)
      ensures CountTable(Rows(lut)) == if reqs == [] then 0 else OccupiedCount(reqs)
    {
      var box := config.box;
      lut := NewTable(box);
      reqs := [];
      var next := 0;
      var i := 0;
      while i < particles.Length
        invariant 0 <= i <= particles.Length
        invariant reqs == Requests(hasVolume, particles[..i])
        invariant next == |reqs|
        invariant TableHolds(box, lut, reqs)
        invariant CountTable(Rows(lut)) == if reqs == [] then 0 else |reqs| - 1
      {
        var c := CellOf(particles[i]);
        assert particles[..i + 1][..i] == particles[..i];
        reqs := Visit(box, hasVolume(c), lut, reqs, c);
        next := |reqs|;
        i := i + 1;
      }
      assert particles[..i] == particles[..];
    }

    /**
     * The second pass of update_weights: all_overlaps and all_yaws start at
     * default_weight; a particle outside the map gets invalid_weight, one on a
     * requested cell the overlap read through the table (and, with yaw and enough
     * overlap, the Gaussian of its heading error). undefined tells whether one of
     * the Gaussians was numpy's 0/0.
     */
    method Multipliers(particles: array<Particle>, lut: array2<int>, reqs: seq<Cell>, scores: Scores, exp: real -> real)
      returns (allOverlaps: array<real>, allYaws: array<real>, undefined: bool)
      requires Valid()
      requires TableHolds(config.box, lut, reqs)
      requires |scores.overlaps| == |reqs| && (config.useYaw ==> |scores.yawBins| == |reqs|)
      ensures fresh(allOverlaps) && fresh(allYaws)
      ensures allOverlaps.Length == particles.Length == allYaws.Length
      ensures forall i :: 0 <= i < particles.Length ==>
        allOverlaps[i] == OverlapMultiplier(config, reqs, scores, particles[i])
      ensures config.useYaw ==> forall i :: 0 <= i < particles.Length ==>
        allYaws[i] == YawMultiplier(config, reqs, scores, exp, particles[i])
      ensures undefined == AnyYawUndefined(config, reqs, scores, particles[..])
    {
      var cfg := config;
      allOverlaps := new real[particles.Length](_ => cfg.defaultWeight);
      allYaws := new real[particles.Length](_ => cfg.defaultWeight);
      undefined := false;
      var i := 0;
      while i < particles.Length
        invariant 0 <= i <= particles.Length
        invariant forall j :: 0 <= j < i ==> allOverlaps[j] == OverlapMultiplier(cfg, reqs, scores, particles[j])
        invariant cfg.useYaw ==> forall j :: 0 <= j < i ==>
          allYaws[j] == YawMultiplier(cfg, reqs, scores, exp, particles[j])
        invariant undefined == AnyYawUndefined(cfg, reqs, scores, particles[..i])
      {
        var overlap, yaw, nan := ParticleMultipliers(lut, reqs, scores, exp, particles[i]);
        allOverlaps[i] := overlap;
        allYaws[i] := yaw;
        AnyYawUndefinedSnoc(cfg, reqs, scores, particles[..], i);
        undefined := undefined || nan;
        i := i + 1;
      }
      assert particles[..i] == particles[..];
    }

    /**
     * One iteration of the loop over particles: the overlap read through the
     * table (invalid off the map, default without a request index) and, with
     * yaw and enough overlap, the heading likelihood; otherwise the default.
     * nan tells whether numpy computes that likelihood as 0/0.
     */
    method ParticleMultipliers(lut: array2<int>, reqs: seq<Cell>, scores: Scores, exp: real -> real, p: Particle)
      returns (overlap: real, yaw: real, nan: bool)
      requires Valid()
      requires TableHolds(config.box, lut, reqs)
      requires |scores.overlaps| == |reqs| && (config.useYaw ==> |scores.yawBins| == |reqs|)
      ensures overlap == OverlapMultiplier(config, reqs, scores, p)
      ensures yaw == if config.useYaw then YawMultiplier(config, reqs, scores, exp, p) else config.defaultWeight
      ensures nan == YawUndefined(config, reqs, scores, p)
    {
      var box := config.box;
      yaw := config.defaultWeight;
      nan := false;
      if !Inside(config, p) {
        overlap := config.invalidWeight;
      } else {
        var c := CellOf(p);
        InsideOnMap(config, p);
        PlacementRoundTrip(box, c);
        var idx := lut[box.Row(c), box.Col(c)];
        if idx >= 0 {
          overlap := scores.overlaps[idx];
          if config.useYaw && overlap >= config.minOverlapForAngle {
            var delta := AngularDistance(YawOf(scores.yawBins[idx]), p.theta);
            yaw := YawLikelihood(exp, delta, config.yawSigma);
            nan := config.yawSigma == 0.0 && delta == 0.0;
          }
        } else {
          overlap := config.defaultWeight;
        }
      }
    }

    /**
     * new_particle[:, 3] *= all_overlaps (* all_yaws): the caller's array gets the
     * multiplied weights in place.
     */
    method ApplyMultipliers(particles: array<Particle>, allOverlaps: array<real>, allYaws: array<real>,
                            reqs: seq<Cell>, scores: Scores, exp: real -> real)
      requires ValidConfig(config)
      requires |scores.overlaps| == |reqs| && (config.useYaw ==> |scores.yawBins| == |reqs|)
      requires allOverlaps.Length == particles.Length == allYaws.Length
      requires forall i :: 0 <= i < particles.Length ==>
        allOverlaps[i] == OverlapMultiplier(config, reqs, scores, particles[i])
      requires config.useYaw ==> forall i :: 0 <= i < particles.Length ==>
        allYaws[i] == YawMultiplier(config, reqs, scores, exp, particles[i])
      modifies particles
      ensures particles[..] == Reweighted(config, reqs, scores, exp, old(particles[..]))
    {
      ghost var ps := particles[..];
      ghost var r := Reweighted(config, reqs, scores, exp, ps);
      if config.useYaw {
        forall i | 0 <= i < particles.Length {
          particles[i] := particles[i].(weight := particles[i].weight * allOverlaps[i] * allYaws[i]);
        }
      } else {
        forall i | 0 <= i < particles.Length {
          particles[i] := particles[i].(weight := particles[i].weight * allOverlaps[i]);
        }
      }
      assert forall i :: 0 <= i < particles.Length ==> particles[i] == r[i];
    }

    /**
     * update_weights: reweights the caller's array in place and returns it, or, when
     * the convergence step cuts the population, a new array of the heaviest
     * particles; the weights of the returned array are then divided by their maximum.
     */
    method UpdateWeights(particles: array<Particle>, frameIdx: nat, exp: real -> real)
      returns (result: array<Particle>, outcome: Outcome)
      requires Valid()
      modifies this, particles
      ensures Valid()
      ensures var u := UpdateWeightsSpec(config, hasVolume, scorer, exp, old(isConverged), old(particles[..]), frameIdx);
        result[..] == u.particles && isConverged == u.converged && outcome == u.outcome
      ensures result == particles
        || (fresh(result) && particles[..] == Multiplied(config, hasVolume, scorer, exp, old(particles[..]), frameIdx))
    {
      ghost var ps := particles[..];
      var lut, reqs := CollectRequests(particles);
      if |reqs| == 0 {
        return particles, Skipped;
      }
      var scores := scorer(frameIdx, reqs);
      var allOverlaps, allYaws, undefined := Multipliers(particles, lut, reqs, scores, exp);
      ApplyMultipliers(particles, allOverlaps, allYaws, reqs, scores, exp);
      assert particles[..] == Multiplied(config, hasVolume, scorer, exp, ps, frameIdx);
      result := particles;
      var occupied := CountTable(Rows(lut));
      if occupied < config.convergeThres && !isConverged {
        isConverged := true;
        if !(config.numReduced > particles.Length) || config.numReduced < 0 {
          result := Reduced(particles, config.numReduced);
        }
      }
      if result.Length == 0 {
        return result, EmptyPopulation;
      }
      if undefined {
        return result, NotANumber;
      }
      var m := MaxWeight(result[..]);
      if m == 0.0 {
        return result, ZeroMaxWeight;
      }
      NormalizeInPlace(result);
      outcome := Updated;
    }
  }
}
