/**
 * The per-frame loop of overlap-based Monte Carlo localisation: for every frame
 * from the start index on, the motion model moves the particles; when the car
 * moved far enough since the last frame, or no sensor update has run yet, the
 * overlap sensor model reweights them and the resampler draws a new population;
 * the population of the frame is then recorded in the result array.
 *
 * The motion model, the command generator and the resampler are functions given
 * to the loop; the loop itself is a method proved against the function Trace,
 * which lists the state after each processed frame.
 */
module Localization {
  import opened Grid
  import opened Particles
  import opened SensorModelOverlap

  /** What the loop works with besides the particles. */
  datatype Filter = Filter(
    update: (bool, seq<Particle>, nat) -> Update,          // update_weights: is_converged, particles, frame
    motion: (seq<Particle>, seq<real>) -> seq<Particle>,   // motion_model(particles, command)
    resample: seq<Particle> -> seq<Particle>,              // resample(particles)
    commands: seq<seq<real>>,                              // gen_commands: one row per pose, row[1] the distance moved
    threshold: real)                                       // 0.2 / grid_res

  predicate WellFormed(F: Filter)
  {
    forall i :: 0 <= i < |F.commands| ==> |F.commands[i]| >= 2
  }

  /** update is the weight update of the sensor model object sm: one call of update_weights for every input. */
  ghost predicate UpdateOf(sm: SensorModel, exp: real -> real, update: (bool, seq<Particle>, nat) -> Update)
  {
    ValidConfig(sm.config) && ScorerComplete(sm.config, sm.scorer)
    && forall c, ps, f {:trigger UpdateWeightsSpec(sm.config, sm.hasVolume, sm.scorer, exp, c, ps, f)} ::
      update(c, ps, f) == UpdateWeightsSpec(sm.config, sm.hasVolume, sm.scorer, exp, c, ps, f)
  }

  /** The loop runs on, or an update ended it at a frame: an empty population, an all-zero weight column or NaN weights. */
  datatype Status = Running | Stopped(frame: nat, outcome: Outcome)

  /** The loop's variables between frames: particles, is_initial, the model's is_converged, and how it ended. */
  datatype State = State(particles: seq<Particle>, initial: bool, converged: bool, status: Status)

  /** `commands[frame_idx, 1] > 0.2 / grid_res or is_initial`, for a loop still running. */
  predicate UpdatesAt(F: Filter, s: State, f: nat)
    requires f < |F.commands| && |F.commands[f]| >= 2
  {
    s.status.Running? && (F.commands[f][1] > F.threshold || s.initial)
  }

  /** One pass of the loop body at frame f. */
  function Step(F: Filter, s: State, f: nat): State
    requires WellFormed(F) && f < |F.commands|
  {
    if s.status.Stopped? then s
    else
      var moved := F.motion(s.particles, F.commands[f]);
      if UpdatesAt(F, s, f) then
        var u := F.update(s.converged, moved, f);
        if u.outcome.Stops() then
          State(u.particles, false, u.converged, Stopped(f, u.outcome))
        else
          State(F.resample(u.particles), false, u.converged, Running)
      else
        State(moved, s.initial, s.converged, Running)
  }

  /** The state after the last entry of a trace, or the initial state. */
  function Last(s0: State, t: seq<State>): State
  {
    if t == [] then s0 else t[|t| - 1]
  }

  /** The states after frames start, start+1, ..., start+n-1. */
  function Trace(F: Filter, s0: State, start: nat, n: nat): (t: seq<State>)
    requires WellFormed(F) && (n == 0 || start + n <= |F.commands|)
    ensures |t| == n
    decreases n
  {
    if n == 0 then []
    else
      var t := Trace(F, s0, start, n - 1);
      t + [Step(F, Last(s0, t), start + n - 1)]
  }

  /** range(start_idx, len(poses)) has this many frames. */
  function Frames(F: Filter, start: nat): nat
  {
    if start < |F.commands| then |F.commands| - start else 0
  }

  /** The state when the loop is over. */
  function Run(F: Filter, s0: State, start: nat): State
    requires WellFormed(F)
  {
    Last(s0, Trace(F, s0, start, Frames(F, start)))
  }

  /** What loc_results[g, j] holds after the loop: the particle of frame g, or what np.empty left there. */
  function Recorded(F: Filter, s0: State, start: nat, g: nat, j: nat, prior: Particle): Particle
    requires WellFormed(F)
  {
    RecordedIn(Trace(F, s0, start, Frames(F, start)), start, g, j, prior)
  }

  /** Slot j of row g after the frames of trace t, the first of them frame start. */
  function RecordedIn(t: seq<State>, start: nat, g: nat, j: nat, prior: Particle): Particle
  {
    if start <= g < start + |t| && t[g - start].status.Running? && j < |t[g - start].particles|
    then t[g - start].particles[j]
    else prior
  }

  // ---------------------------------------------------------------- properties of the trace

  /** A longer run starts with the shorter one: frames are processed once each, in order. */
  lemma {:induction false} TracePrefix(F: Filter, s0: State, start: nat, n: nat, m: nat)
    requires WellFormed(F) && (n == 0 || start + n <= |F.commands|) && m <= n
    ensures Trace(F, s0, start, m) == Trace(F, s0, start, n)[..m]
    decreases n
  {
    if m < n {
      TracePrefix(F, s0, start, n - 1, m);
    }
  }

  /** One more frame appends one loop pass to the trace. */
  lemma TraceSnoc(F: Filter, s0: State, start: nat, t: seq<State>)
    requires WellFormed(F) && start + |t| < |F.commands|
    requires t == Trace(F, s0, start, |t|)
    ensures t + [Step(F, Last(s0, t), start + |t|)] == Trace(F, s0, start, |t| + 1)
  {
  }

  /** The state after frame start+k is one loop pass over the state before it. */
  lemma {:induction false} TraceSteps(F: Filter, s0: State, start: nat, n: nat, k: nat)
    requires WellFormed(F) && (n == 0 || start + n <= |F.commands|) && k < n
    ensures var t := Trace(F, s0, start, n);
      t[k] == Step(F, Last(s0, t[..k]), start + k)
  {
    TracePrefix(F, s0, start, n, k + 1);
    TracePrefix(F, s0, start, k + 1, k);
  }

  /** is_initial starts true and is false after every processed frame: the first frame always gets an update. */
  lemma {:induction false} InitialClearedForever(F: Filter, s0: State, start: nat, n: nat)
    requires WellFormed(F) && (n == 0 || start + n <= |F.commands|)
    requires s0.initial && s0.status.Running?
    ensures forall k :: 0 <= k < n ==> !Trace(F, s0, start, n)[k].initial
  {
    if n > 0 {
      InitialClearedForever(F, s0, start, n - 1);
      var t := Trace(F, s0, start, n - 1);
      assert Trace(F, s0, start, n) == t + [Step(F, Last(s0, t), start + n - 1)];
      if t != [] {
        assert !Last(s0, t).initial;
      }
    }
  }

  /**
   * Sensor update and resampling run at frame start+k (as long as no update
   * stopped the loop) exactly when k is 0 or the car moved more than
   * 0.2 / grid_res: move_thres plays no part.
   */
  lemma {:induction false} UpdateGate(F: Filter, s0: State, start: nat, k: nat)
    requires WellFormed(F) && start + k < |F.commands|
    requires s0.initial && s0.status.Running?
    requires Last(s0, Trace(F, s0, start, k)).status.Running?
    ensures UpdatesAt(F, Last(s0, Trace(F, s0, start, k)), start + k)
      <==> k == 0 || F.commands[start + k][1] > F.threshold
  {
    if k > 0 {
      InitialClearedForever(F, s0, start, k);
    }
  }

  /** Once an update stops the loop, no later frame changes anything. */
  lemma {:induction false} StoppedStays(F: Filter, s0: State, start: nat, n: nat, k: nat)
    requires WellFormed(F) && (n == 0 || start + n <= |F.commands|) && k < n
    requires Trace(F, s0, start, n)[k].status.Stopped?
    ensures forall i :: k <= i < n ==> Trace(F, s0, start, n)[i] == Trace(F, s0, start, n)[k]
    decreases n
  {
    var t := Trace(F, s0, start, n - 1);
    assert Trace(F, s0, start, n) == t + [Step(F, Last(s0, t), start + n - 1)];
    if k < n - 1 {
      StoppedStays(F, s0, start, n - 1, k);
    }
  }

  /** One weight update never adds particles: the reduction can only cut the population. */
  lemma {:induction false} UpdateNeverGrows(sm: SensorModel, exp: real -> real, update: (bool, seq<Particle>, nat) -> Update)
    requires UpdateOf(sm, exp, update)
    ensures forall c, ps, f :: |update(c, ps, f).particles| <= |ps|
  {
    forall c, ps, f
      ensures |update(c, ps, f).particles| <= |ps|
    {
      var u := UpdateWeightsSpec(sm.config, sm.hasVolume, sm.scorer, exp, c, ps, f);
      var weighted := Multiplied(sm.config, sm.hasVolume, sm.scorer, exp, ps, f);
      assert |weighted| == |ps|;
    }
  }

  /**
   * With a motion model and a resampler that keep the population size, no frame
   * has more particles than the start: loc_results[frame_idx, :len(particles)]
   * always fits in the numParticles slots of a row.
   */
  lemma {:induction false} PopulationNeverGrows(F: Filter, s0: State, start: nat, n: nat)
    requires WellFormed(F) && (n == 0 || start + n <= |F.commands|)
    requires forall ps, c :: |F.motion(ps, c)| == |ps|
    requires forall ps :: |F.resample(ps)| == |ps|
    requires forall c, ps, f :: |F.update(c, ps, f).particles| <= |ps|
    ensures forall k :: 0 <= k < n ==> |Trace(F, s0, start, n)[k].particles| <= |s0.particles|
  {
    if n > 0 {
      PopulationNeverGrows(F, s0, start, n - 1);
      var t := Trace(F, s0, start, n - 1);
      var s := Last(s0, t);
      assert Trace(F, s0, start, n) == t + [Step(F, s, start + n - 1)];
    }
  }

  // ---------------------------------------------------------------- the loop

  /** The loop's setting: the model's update, the given functions, and the gate 0.2 / grid_res. */
  function FilterOf(update: (bool, seq<Particle>, nat) -> Update, motion: (seq<Particle>, seq<real>) -> seq<Particle>,
                    resample: seq<Particle> -> seq<Particle>, commands: seq<seq<real>>, gridRes: real): Filter
    requires gridRes != 0.0
  {
    Filter(update, motion, resample, commands, 0.2 / gridRes)
  }

  /** A fresh array holding a sequence. */
  method ToArray(s: seq<Particle>) returns (a: array<Particle>)
    ensures fresh(a) && a[..] == s
  {
    a := new Particle[|s|](i requires 0 <= i < |s| => s[i]);
  }

  /**
   * One pass of the loop body without the recording: the motion model, then, when
   * the gate opens, update_weights and resample.
   */
  method Advance(ghost F: Filter, ghost s: State, sm: SensorModel, particles: array<Particle>, isInitial: bool, f: nat,
                 commands: seq<seq<real>>, gridRes: real, motion: (seq<Particle>, seq<real>) -> seq<Particle>,
                 resample: seq<Particle> -> seq<Particle>, exp: real -> real)
    returns (next: array<Particle>, nowInitial: bool, status: Status)
    requires sm.Valid() && gridRes != 0.0 && UpdateOf(sm, exp, F.update)
    requires F == FilterOf(F.update, motion, resample, commands, gridRes)
    requires f < |commands| && forall i :: 0 <= i < |commands| ==> |commands[i]| >= 2
    requires forall ps, c :: |motion(ps, c)| == |ps|
    requires forall ps :: |resample(ps)| == |ps|
    requires s == State(particles[..], isInitial, sm.isConverged, Running)
    modifies sm
    ensures sm.Valid()
    ensures var r := Step(F, s, f);
      next[..] == r.particles && nowInitial == r.initial && sm.isConverged == r.converged && status == r.status
    ensures next.Length <= particles.Length
  {
    var moved := ToArray(motion(particles[..], commands[f]));
    nowInitial := isInitial;
    if commands[f][1] > 0.2 / gridRes || isInitial {
      nowInitial := false;
      UpdateNeverGrows(sm, exp, F.update);
      var updated, outcome := sm.UpdateWeights(moved, f, exp);
      if outcome.Stops() {
        return updated, false, Stopped(f, outcome);
      }
      next := ToArray(resample(updated[..]));
    } else {
      next := moved;
    }
    status := Running;
  }

  /** loc_results[frame_idx, :len(particles)] = particles. */
  method Record(locResults: array2<Particle>, f: nat, particles: array<Particle>)
    requires f < locResults.Length0 && particles.Length <= locResults.Length1
    modifies locResults
    ensures forall g, j :: 0 <= g < locResults.Length0 && 0 <= j < locResults.Length1 ==>
      locResults[g, j] == if g == f && j < particles.Length then particles[j] else old(locResults[g, j])
  {
    forall j | 0 <= j < particles.Length {
      locResults[f, j] := particles[j];
    }
  }

  /**
   * The frame loop, lines 83-103: motion, the gated update and resampling, and the
   * recording of each frame's particles in row frame_idx of loc_results.
   */
  method Localize(sm: SensorModel, init: array<Particle>, commands: seq<seq<real>>, startIdx: nat, gridRes: real,
                  motion: (seq<Particle>, seq<real>) -> seq<Particle>, resample: seq<Particle> -> seq<Particle>,
                  exp: real -> real, ghost update: (bool, seq<Particle>, nat) -> Update,
                  saveResult: bool, locResults: array2<Particle>)
    returns (particles: array<Particle>, status: Status)
    requires sm.Valid() && gridRes != 0.0 && UpdateOf(sm, exp, update)
    requires forall i :: 0 <= i < |commands| ==> |commands[i]| >= 2
    requires forall ps, c :: |motion(ps, c)| == |ps|
    requires forall ps :: |resample(ps)| == |ps|
    requires saveResult ==> locResults.Length0 == |commands| && locResults.Length1 == init.Length
    modifies sm, locResults
    ensures sm.Valid()
    ensures var last := Run(FilterOf(update, motion, resample, commands, gridRes),
                            State(old(init[..]), true, old(sm.isConverged), Running), startIdx);
      particles[..] == last.particles && status == last.status && sm.isConverged == last.converged
    ensures saveResult ==> forall g, j :: 0 <= g < locResults.Length0 && 0 <= j < locResults.Length1 ==>
      locResults[g, j] == Recorded(FilterOf(update, motion, resample, commands, gridRes),
                                   State(old(init[..]), true, old(sm.isConverged), Running), startIdx, g, j,
                                   old(locResults[g, j]))
    ensures !saveResult ==> unchanged(locResults)
  {
    ghost var F := FilterOf(update, motion, resample, commands, gridRes);
    ghost var s0 := State(init[..], true, sm.isConverged, Running);
    ghost var trace;
    particles, status, trace := FrameLoop(F, s0, sm, init, commands, startIdx, gridRes, motion, resample, exp,
                                             saveResult, locResults);
    if status.Stopped? {
      Finish(F, s0, startIdx, trace);
    }
  }

  /** The loop of Localize, stated over the trace of the frames it went through. */
  method FrameLoop(ghost F: Filter, ghost s0: State, sm: SensorModel, init: array<Particle>, commands: seq<seq<real>>,
                   startIdx: nat, gridRes: real, motion: (seq<Particle>, seq<real>) -> seq<Particle>,
                   resample: seq<Particle> -> seq<Particle>, exp: real -> real, saveResult: bool,
                   locResults: array2<Particle>)
    returns (particles: array<Particle>, status: Status, ghost trace: seq<State>)
    requires sm.Valid() && gridRes != 0.0 && UpdateOf(sm, exp, F.update) && WellFormed(F)
    requires F == FilterOf(F.update, motion, resample, commands, gridRes)
    requires s0 == State(init[..], true, sm.isConverged, Running)
    requires forall i :: 0 <= i < |commands| ==> |commands[i]| >= 2
    requires forall ps, c :: |motion(ps, c)| == |ps|
    requires forall ps :: |resample(ps)| == |ps|
    requires saveResult ==> locResults.Length0 == |commands| && locResults.Length1 == init.Length
    modifies sm, locResults
    ensures sm.Valid()
    ensures trace == [] || startIdx + |trace| <= |commands|
    ensures trace == Trace(F, s0, startIdx, |trace|)
    ensures status.Running? ==>
      |trace| == Frames(F, startIdx) && Last(s0, trace) == State(particles[..], Last(s0, trace).initial, sm.isConverged, Running)
    ensures status.Stopped? ==>
      trace != [] && startIdx + |trace| <= |commands| && trace[|trace| - 1] == State(particles[..], false, sm.isConverged, status)
    ensures saveResult ==> forall g, j :: 0 <= g < locResults.Length0 && 0 <= j < locResults.Length1 ==>
      locResults[g, j] == RecordedIn(trace, startIdx, g, j, old(locResults[g, j]))
    ensures !saveResult ==> unchanged(locResults)
  {
    trace := [];
    particles := init;
    status := Running;
    var isInitial := true;
    var f := startIdx;
    while f < |commands|
      invariant f == startIdx + |trace|
      invariant trace == [] || f <= |commands|
      invariant trace == Trace(F, s0, startIdx, |trace|)
      invariant Last(s0, trace) == State(particles[..], isInitial, sm.isConverged, Running)
      invariant particles.Length <= init.Length
      invariant sm.Valid() && UpdateOf(sm, exp, F.update)
      invariant saveResult ==> forall g, j :: 0 <= g < locResults.Length0 && 0 <= j < locResults.Length1 ==>
        locResults[g, j] == RecordedIn(trace, startIdx, g, j, old(locResults[g, j]))
      invariant !saveResult ==> unchanged(locResults)
      invariant status == Running
      decreases |commands| - f
    {
      ghost var before := trace;
      particles, isInitial, status, trace :=
        FrameBody(F, s0, trace, sm, particles, isInitial, f, startIdx, commands, gridRes, motion, resample, exp,
                  saveResult, locResults, init.Length);
      if status.Stopped? {
        return;
      }
      RecordedSnoc(before, trace[|trace| - 1], startIdx);
      f := f + 1;
    }
  }

  /** One pass of the loop body: Advance, then the recording of the frame's particles. */
  method FrameBody(ghost F: Filter, ghost s0: State, ghost trace: seq<State>, sm: SensorModel,
                   particles: array<Particle>, isInitial: bool, f: nat, startIdx: nat, commands: seq<seq<real>>,
                   gridRes: real, motion: (seq<Particle>, seq<real>) -> seq<Particle>,
                   resample: seq<Particle> -> seq<Particle>, exp: real -> real, saveResult: bool,
                   locResults: array2<Particle>, ghost size: nat)
    returns (next: array<Particle>, nowInitial: bool, status: Status, ghost after: seq<State>)
    requires sm.Valid() && gridRes != 0.0 && UpdateOf(sm, exp, F.update) && WellFormed(F)
    requires F == FilterOf(F.update, motion, resample, commands, gridRes)
    requires forall ps, c :: |motion(ps, c)| == |ps|
    requires forall ps :: |resample(ps)| == |ps|
    requires f == startIdx + |trace| && f < |commands|
    requires trace == Trace(F, s0, startIdx, |trace|)
    requires Last(s0, trace) == State(particles[..], isInitial, sm.isConverged, Running)
    requires particles.Length <= size
    requires saveResult ==> locResults.Length0 == |commands| && locResults.Length1 == size
    modifies sm, locResults
    ensures sm.Valid()
    ensures after == trace + [Step(F, Last(s0, trace), f)] && after == Trace(F, s0, startIdx, |after|)
    ensures status == after[|after| - 1].status
    ensures status.Running? ==>
      Last(s0, after) == State(next[..], nowInitial, sm.isConverged, Running) && next.Length <= size
    ensures status.Stopped? ==> after[|after| - 1] == State(next[..], false, sm.isConverged, status)
    ensures saveResult ==> forall g, j :: 0 <= g < locResults.Length0 && 0 <= j < locResults.Length1 ==>
      locResults[g, j] == if g == f && status.Running? && j < next.Length then next[j] else old(locResults[g, j])
    ensures !saveResult ==> unchanged(locResults)
  {
    ghost var prev := Last(s0, trace);
    next, nowInitial, status := Advance(F, prev, sm, particles, isInitial, f, commands, gridRes, motion, resample, exp);
    TraceSnoc(F, s0, startIdx, trace);
    after := trace + [Step(F, prev, f)];
    if status.Running? && saveResult {
      Record(locResults, f, next);
    }
  }

  /** Recording one more frame changes row start+|t| only. */
  lemma RecordedSnoc(t: seq<State>, x: State, start: nat)
    ensures forall g: nat, j: nat, prior: Particle ::
      RecordedIn(t + [x], start, g, j, prior)
      == if g == start + |t| then (if x.status.Running? && j < |x.particles| then x.particles[j] else prior)
         else RecordedIn(t, start, g, j, prior)
  {
  }

  /** When an update stops the loop at the last traced frame, that state is the final one and nothing after it is recorded. */
  lemma {:induction false} Finish(F: Filter, s0: State, start: nat, trace: seq<State>)
    requires WellFormed(F) && trace != [] && start + |trace| <= |F.commands|
    requires trace == Trace(F, s0, start, |trace|)
    requires trace[|trace| - 1].status.Stopped?
    ensures Run(F, s0, start) == trace[|trace| - 1]
    ensures forall g: nat, j: nat, prior: Particle :: Recorded(F, s0, start, g, j, prior) == RecordedIn(trace, start, g, j, prior)
  {
    var n := Frames(F, start);
    var t := Trace(F, s0, start, n);
    TracePrefix(F, s0, start, n, |trace|);
    StoppedStays(F, s0, start, n, |trace| - 1);
    forall g: nat, j: nat, prior: Particle
      ensures RecordedIn(t, start, g, j, prior) == RecordedIn(trace, start, g, j, prior)
    {
      if start <= g < start + |trace| {
        assert t[g - start] == trace[g - start];
      }
    }
  }
}
