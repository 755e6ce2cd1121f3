/** The entities of the aquarium simulation and its fixed configuration.
    Coordinates are modelled as real numbers; integer counters stay small,
    so machine-width overflow never arises. */
module Entities {

  /** The logical screen, in pixels. */
  const ScreenWidth: real := 340.0
  const ScreenHeight: real := 224.0

  /** Per-axis speed cap applied at the start of every random-walk step. */
  const MaxVelocity: real := 2.0

  /** The fish: position, velocity, acceleration, facing, and the lunge countdown.
      `bored` and `flipCount` are declared by the program but never read or written. */
  datatype FishState = FishState(
    x: real, y: real,
    vx: real, vy: real,
    ax: real, ay: real,
    flipped: bool,
    bored: bool,
    flipCount: int,
    lungeCount: int)

  /** A bubble floats straight up with a constant vertical velocity. */
  datatype Bubble = Bubble(x: real, y: real, vy: real, scale: real)

  /** Seaweed is placed once and never moves. */
  datatype Seaweed = Seaweed(x: real, y: real)

  /** The fading sprite shown where a bubble was popped. */
  datatype PopEffect = PopEffect(x: real, y: real, scale: real, frames: int, alpha: real, active: bool)

  /** Pixel dimensions of the images the simulation measures (decoded elsewhere). */
  datatype Assets = Assets(fishWidth: nat, fishHeight: nat, seabedHeight: nat, seaweedHeight: nat)
}
