/** The particle population of the localiser. */
module Particles {

  /** One particle: a position in grid units, a heading in radians and a weight (one row [x, y, theta, weight]). */
  datatype Particle = Particle(x: real, y: real, theta: real, weight: real)

  /** np.pi, the double closest to pi. */
  const Pi: real := 3.141592653589793

  /** np.max of the weight column. */
  function MaxWeight(ps: seq<Particle>): (m: real)
    requires |ps| > 0
    ensures forall i :: 0 <= i < |ps| ==> ps[i].weight <= m
    ensures exists i :: 0 <= i < |ps| && ps[i].weight == m
  {
    if |ps| == 1 then ps[0].weight
    else
      var rest := MaxWeight(ps[1..]);
      assert forall i :: 1 <= i < |ps| ==> ps[i] == ps[1..][i - 1];
      if ps[0].weight > rest then ps[0].weight else rest
  }

  /** Two populations of equal size whose particles sit at the same poses (x, y, theta). */
  predicate SamePoses(a: seq<Particle>, b: seq<Particle>)
  {
    |a| == |b| && forall i :: 0 <= i < |a| ==> a[i].x == b[i].x && a[i].y == b[i].y && a[i].theta == b[i].theta
  }
}
