/** The chase planner: pick the nearest bubble (earliest on ties), fall back
    to wander when there is none or it is off screen, otherwise steer at a
    predicted point and integrate the fish once more. */
module Planner {
  import opened Entities

  /** Ticks of extrapolation for the predicted target point. */
  const PredictionTicks: real := 8.0
  /** Gain from offset to acceleration. */
  const SteerGain: real := 0.0001

  /** Squared Euclidean distance. The program takes the square root, which is
      strictly increasing on non-negative reals, so both order bubbles alike. */
  function SqDistance(x1: real, y1: real, x2: real, y2: real): (d: real)
    ensures d >= 0.0
    ensures x1 == x2 && y1 == y2 ==> d == 0.0
  {
    var dx := x2 - x1;
    var dy := y2 - y1;
    SquarePositive(dx);
    SquarePositive(dy);
    dx * dx + dy * dy
  }

  lemma SquarePositive(a: real)
    ensures a * a >= 0.0
  {
    if a < 0.0 {
      assert a * a == (-a) * (-a);
    }
  }

  /** Squared distance from a point to a bubble. */
  function DistTo(fx: real, fy: real, b: Bubble): (d: real)
    ensures d >= 0.0
    ensures fx == b.x && fy == b.y ==> d == 0.0
  {
    SqDistance(fx, fy, b.x, b.y)
  }

  /** Among the first n bubbles, k is closest and no earlier bubble is as close. */
  predicate NearestAmong(bs: seq<Bubble>, fx: real, fy: real, n: nat, k: nat)
  {
    k < |bs| && k <= n <= |bs| &&
    forall j :: 0 <= j < n ==>
      DistTo(fx, fy, bs[k]) <= DistTo(fx, fy, bs[j]) &&
      (j < k ==> DistTo(fx, fy, bs[j]) > DistTo(fx, fy, bs[k]))
  }

  /** k is the lowest index of a closest bubble. */
  predicate IsNearest(bs: seq<Bubble>, fx: real, fy: real, k: nat)
  {
    NearestAmong(bs, fx, fy, |bs|, k)
  }

  /** The scan that keeps the first strictly smaller distance. */
  function Scan(bs: seq<Bubble>, fx: real, fy: real, i: nat, k: nat): (r: nat)
    requires NearestAmong(bs, fx, fy, i, k)
    ensures IsNearest(bs, fx, fy, r)
    decreases |bs| - i
  {
    if i == |bs| then k
    else if DistTo(fx, fy, bs[i]) < DistTo(fx, fy, bs[k]) then Scan(bs, fx, fy, i + 1, i)
    else Scan(bs, fx, fy, i + 1, k)
  }

  function NearestIndex(bs: seq<Bubble>, fx: real, fy: real): (k: nat)
    requires |bs| > 0
    ensures IsNearest(bs, fx, fy, k)
  {
    Scan(bs, fx, fy, 0, 0)
  }

  /** The lowest-index minimum is unique. */
  lemma NearestUnique(bs: seq<Bubble>, fx: real, fy: real, k1: nat, k2: nat)
    requires IsNearest(bs, fx, fy, k1) && IsNearest(bs, fx, fy, k2)
    ensures k1 == k2
  {
    NearestVersus(bs, fx, fy, k1, k2);
    NearestVersus(bs, fx, fy, k2, k1);
  }

  lemma NearestVersus(bs: seq<Bubble>, fx: real, fy: real, k: nat, j: nat)
    requires IsNearest(bs, fx, fy, k) && j < |bs|
    ensures DistTo(fx, fy, bs[k]) <= DistTo(fx, fy, bs[j])
    ensures j < k ==> DistTo(fx, fy, bs[j]) > DistTo(fx, fy, bs[k])
  {
  }

  /** Bubbles at distances 5, 3 and 9 from the fish: the second one is chosen;
      and of two equally distant bubbles the first. */
  lemma NearestExamples()
    ensures NearestIndex([Bubble(5.0, 0.0, -0.2, 1.0), Bubble(0.0, 3.0, -0.2, 1.0), Bubble(-9.0, 0.0, -0.2, 1.0)], 0.0, 0.0) == 1
    ensures NearestIndex([Bubble(4.0, 0.0, -0.2, 1.0), Bubble(-4.0, 0.0, -0.2, 1.0)], 0.0, 0.0) == 0
  {
    var bs := [Bubble(5.0, 0.0, -0.2, 1.0), Bubble(0.0, 3.0, -0.2, 1.0), Bubble(-9.0, 0.0, -0.2, 1.0)];
    assert IsNearest(bs, 0.0, 0.0, 1);
    NearestUnique(bs, 0.0, 0.0, 1, NearestIndex(bs, 0.0, 0.0));
    var ts := [Bubble(4.0, 0.0, -0.2, 1.0), Bubble(-4.0, 0.0, -0.2, 1.0)];
    assert IsNearest(ts, 0.0, 0.0, 0);
    NearestUnique(ts, 0.0, 0.0, 0, NearestIndex(ts, 0.0, 0.0));
  }

  /** Inside the closed screen rectangle. */
  predicate OnScreen(b: Bubble)
  {
    0.0 <= b.x <= ScreenWidth && 0.0 <= b.y <= ScreenHeight
  }

  /** Where the fish aims: the target extrapolated by its vertical velocity
      on both axes, as the program computes it. */
  function PredictedX(b: Bubble): (r: real)
    ensures r - b.x == PredictionTicks * b.vy
    ensures b.vy < 0.0 ==> r < b.x
  {
    b.x + b.vy * PredictionTicks
  }

  function PredictedY(b: Bubble): (r: real)
    ensures r - b.y == PredictionTicks * b.vy
    ensures b.vy < 0.0 ==> r < b.y
  {
    b.y + b.vy * PredictionTicks
  }

  /** The fish only changes its acceleration. */
  predicate OnlyAccelerationChanged(f: FishState, r: FishState)
  {
    r.(ax := f.ax, ay := f.ay) == f
  }

  /** The fish accelerates toward (px, py) in proportion to the offset and
      takes one forward-Euler step with that acceleration. */
  predicate SteersToward(f: FishState, r: FishState, px: real, py: real)
  {
    r.ax == SteerGain * (px - f.x) && r.ay == SteerGain * (py - f.y) &&
    r.vx == f.vx + r.ax && r.vy == f.vy + r.ay &&
    r.x == f.x + r.vx && r.y == f.y + r.vy &&
    r.flipped == f.flipped && r.lungeCount == f.lungeCount &&
    r.bored == f.bored && r.flipCount == f.flipCount
  }

  /** Is there an on-screen nearest bubble to chase? */
  predicate HasTarget(bs: seq<Bubble>, f: FishState)
  {
    |bs| > 0 && OnScreen(bs[NearestIndex(bs, f.x, f.y)])
  }

  /** The chase step; `u1`, `u2` are the wander draws in [0, 1). */
  function Chase(f: FishState, bs: seq<Bubble>, u1: real, u2: real): (r: FishState)
    requires 0.0 <= u1 < 1.0 && 0.0 <= u2 < 1.0
    ensures !HasTarget(bs, f) ==>
      OnlyAccelerationChanged(f, r) && -0.005 <= r.ax < 0.005 && -0.0045 <= r.ay < 0.0045
    ensures HasTarget(bs, f) ==>
      var t := bs[NearestIndex(bs, f.x, f.y)];
      SteersToward(f, r, PredictedX(t), PredictedY(t))
  {
    var wander := f.(ax := (u1 - 0.5) * 0.01, ay := (u2 - 0.5) * 0.009);
    if |bs| == 0 then wander
    else
      var t := bs[NearestIndex(bs, f.x, f.y)];
      if t.y < 0.0 || t.y > ScreenHeight || t.x < 0.0 || t.x > ScreenWidth then wander
      else
        var ax := (PredictedX(t) - f.x) * SteerGain;
        var ay := (PredictedY(t) - f.y) * SteerGain;
        var vx := f.vx + ax;
        var vy := f.vy + ay;
        f.(ax := ax, ay := ay, vx := vx, vy := vy, x := f.x + vx, y := f.y + vy)
  }

  /** Steering pulls the fish's acceleration toward the predicted point on each axis. */
  lemma SteeringPointsAtTarget(f: FishState, bs: seq<Bubble>, u1: real, u2: real)
    requires 0.0 <= u1 < 1.0 && 0.0 <= u2 < 1.0
    requires HasTarget(bs, f)
    ensures var t := bs[NearestIndex(bs, f.x, f.y)];
      var r := Chase(f, bs, u1, u2);
      (PredictedX(t) > f.x ==> r.ax > 0.0) && (PredictedX(t) < f.x ==> r.ax < 0.0) &&
      (PredictedY(t) > f.y ==> r.ay > 0.0) && (PredictedY(t) < f.y ==> r.ay < 0.0)
  {
  }
}
