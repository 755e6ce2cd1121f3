/** One random-walk step of the fish: lunge trigger, wander or lunge
    acceleration, velocity clamp, forward-Euler integration, lunge countdown,
    facing flip, and clamp-and-bounce at the walls. */
module Kinematics {
  import opened Entities

  /** The random draws one step consumes: `roll` decides the lunge, `ax` and
      `ay` are the two acceleration draws of whichever branch runs, and
      `duration` is the integer draw below 4 that sets a lunge's length. */
  datatype WalkDraws = WalkDraws(roll: real, ax: real, ay: real, duration: int)

  predicate ValidDraws(d: WalkDraws)
  {
    0.0 <= d.roll < 1.0 && 0.0 <= d.ax < 1.0 && 0.0 <= d.ay < 1.0 && 0 <= d.duration < 4
  }

  const LungeChance: real := 0.02
  const FlipThreshold: real := 0.1
  const Restitution: real := 0.7
  /** The fish's x never exceeds this. */
  const RightWall: real := ScreenWidth - 30.0

  /** A lunge begins only when none is running and the roll falls below the chance. */
  predicate StartsLunge(f: FishState, d: WalkDraws)
  {
    f.lungeCount <= 0 && d.roll < LungeChance
  }

  /** Lunge trigger and acceleration choice: a lunge pushes harder and sets the
      countdown to 1..4; otherwise a gentle wander jitter. */
  function ChooseAcceleration(f: FishState, d: WalkDraws): (r: FishState)
    requires ValidDraws(d)
    ensures StartsLunge(f, d) ==>
      1 <= r.lungeCount <= 4 && -0.0056 <= r.ax < 0.0024 && -0.0045 <= r.ay < 0.0005
    ensures !StartsLunge(f, d) ==>
      r.lungeCount == f.lungeCount && -0.003 <= r.ax < 0.003 && -0.0015 <= r.ay < 0.0015
    ensures r.(ax := f.ax, ay := f.ay, lungeCount := f.lungeCount) == f
  {
    if StartsLunge(f, d) then
      f.(ax := (d.ax - 0.7) * 0.008, ay := (d.ay - 0.9) * 0.005, lungeCount := d.duration + 1)
    else
      f.(ax := (d.ax - 0.5) * 0.006, ay := (d.ay - 0.5) * 0.003)
  }

  /** Clamp one velocity component to [-MaxVelocity, MaxVelocity]. */
  function Clamp(v: real): (r: real)
    ensures -MaxVelocity <= r <= MaxVelocity
    ensures -MaxVelocity <= v <= MaxVelocity ==> r == v
    ensures v > MaxVelocity ==> r == MaxVelocity
    ensures v < -MaxVelocity ==> r == -MaxVelocity
  {
    if v > MaxVelocity then MaxVelocity
    else if v < -MaxVelocity then -MaxVelocity
    else v
  }

  /** The per-axis clamp; it runs before the acceleration is added. */
  function ClampVelocity(f: FishState): (r: FishState)
    ensures -MaxVelocity <= r.vx <= MaxVelocity && -MaxVelocity <= r.vy <= MaxVelocity
    ensures -MaxVelocity <= f.vx <= MaxVelocity ==> r.vx == f.vx
    ensures -MaxVelocity <= f.vy <= MaxVelocity ==> r.vy == f.vy
    ensures r.vx == Clamp(f.vx) && r.vy == Clamp(f.vy)
    ensures r.(vx := f.vx, vy := f.vy) == f
  {
    f.(vx := Clamp(f.vx), vy := Clamp(f.vy))
  }

  /** Forward Euler: velocity += acceleration, then position += velocity. */
  function Integrate(f: FishState): (r: FishState)
    ensures r.vx - f.vx == f.ax && r.vy - f.vy == f.ay
    ensures r.x - f.x == r.vx && r.y - f.y == r.vy
    ensures r.(x := f.x, y := f.y, vx := f.vx, vy := f.vy) == f
  {
    var vx := f.vx + f.ax;
    var vy := f.vy + f.ay;
    f.(vx := vx, vy := vy, x := f.x + vx, y := f.y + vy)
  }

  /** The lunge countdown drops by one while positive. */
  function CountDownLunge(f: FishState): (r: FishState)
    ensures f.lungeCount > 0 ==> r.lungeCount == f.lungeCount - 1
    ensures f.lungeCount <= 0 ==> r == f
    ensures f.lungeCount >= 0 ==> 0 <= r.lungeCount <= f.lungeCount
    ensures r.(lungeCount := f.lungeCount) == f
  {
    if f.lungeCount > 0 then f.(lungeCount := f.lungeCount - 1) else f
  }

  /** Facing flip: moving right faster than the threshold faces right,
      moving left faster than it faces left, anything slower keeps the facing. */
  function Face(f: FishState): (r: FishState)
    ensures f.vx > FlipThreshold ==> !r.flipped
    ensures f.vx < -FlipThreshold ==> r.flipped
    ensures -FlipThreshold <= f.vx <= FlipThreshold ==> r.flipped == f.flipped
    ensures r.(flipped := f.flipped) == f
  {
    if f.vx > FlipThreshold && f.flipped then f.(flipped := false)
    else if f.vx < -FlipThreshold && !f.flipped then f.(flipped := true)
    else f
  }

  /** Clamp-and-bounce at the walls: a coordinate outside its range is set to
      the nearer bound and its velocity reversed and damped by 0.7. */
  function Bounce(f: FishState, seabedHeight: nat): (r: FishState)
    ensures 0.0 <= r.x <= RightWall
    ensures seabedHeight as real <= ScreenHeight ==> 0.0 <= r.y <= ScreenHeight - seabedHeight as real
    ensures 0.0 <= f.x <= RightWall ==> r.x == f.x
    ensures f.x < 0.0 ==> r.x == 0.0
    ensures f.x > RightWall ==> r.x == RightWall
    ensures f.y < 0.0 ==> r.y == 0.0
    ensures 0.0 <= f.y && f.y > ScreenHeight - seabedHeight as real ==>
      r.y == ScreenHeight - seabedHeight as real
    ensures 0.0 <= f.y <= ScreenHeight - seabedHeight as real ==> r.y == f.y
    ensures r.x == f.x ==> r.vx == f.vx
    ensures r.x != f.x ==> r.vx == -f.vx * Restitution
    ensures r.y == f.y ==> r.vy == f.vy
    ensures r.y != f.y ==> r.vy == -f.vy * Restitution
    ensures r.(x := f.x, y := f.y, vx := f.vx, vy := f.vy) == f
  {
    var floor := ScreenHeight - seabedHeight as real;
    var g :=
      if f.x < 0.0 then f.(x := 0.0, vx := -f.vx * Restitution)
      else if f.x > RightWall then f.(x := RightWall, vx := -f.vx * Restitution)
      else f;
    if g.y < 0.0 then g.(y := 0.0, vy := -g.vy * Restitution)
    else if g.y > floor then g.(y := floor, vy := -g.vy * Restitution)
    else g
  }

  /** The whole random-walk step, in the program's order. */
  function Walk(f: FishState, d: WalkDraws, seabedHeight: nat): (r: FishState)
    requires ValidDraws(d)
    ensures 0.0 <= r.x <= RightWall
    ensures seabedHeight as real <= ScreenHeight ==> 0.0 <= r.y <= ScreenHeight - seabedHeight as real
    ensures -2.0056 <= r.vx <= 2.0056 && -2.0045 <= r.vy <= 2.0045
    ensures StartsLunge(f, d) ==> r.lungeCount == d.duration
    ensures !StartsLunge(f, d) && f.lungeCount > 0 ==> r.lungeCount == f.lungeCount - 1
    ensures !StartsLunge(f, d) && f.lungeCount <= 0 ==> r.lungeCount == f.lungeCount
    ensures f.lungeCount >= 0 ==> 0 <= r.lungeCount
    ensures 0 <= f.lungeCount <= 3 ==> r.lungeCount <= 3
    ensures r.bored == f.bored && r.flipCount == f.flipCount
  {
    var accel := ChooseAcceleration(f, d);
    var capped := ClampVelocity(accel);
    var moved := Integrate(capped);
    var counted := CountDownLunge(moved);
    var faced := Face(counted);
    Bounce(faced, seabedHeight)
  }
}
