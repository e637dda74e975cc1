/**
 * Values shared by every component of the gas engine: 2-D vectors, particles
 * and the read-only configuration of one experiment (box geometry, interaction
 * cutoff, time step, animation switch).
 */
module Gas {

  /** A strictly positive real: particle masses and the integration time step. */
  type PosReal = r: real | r > 0.0 witness 1.0

  /** A non-negative real: the interaction cutoff range. */
  type NonNegReal = r: real | r >= 0.0 witness 0.0

  /**
   * The jitter the boundary enforcer draws once per particle and per pass,
   * `0.5 * Math.random() + 0.2`, which lies in [0.2, 0.7).
   */
  type Jitter = d: real | 0.2 <= d < 0.7 witness 0.2

  datatype Vec = Vec(x: real, y: real)

  const Zero: Vec := Vec(0.0, 0.0)

  /**
   * A particle as the engine sees it. A clone keeps mass and radius and
   * compares equal to its original; the engine identifies a particle with
   * its index in the particle list instead.
   */
  datatype Particle = Particle(pos: Vec, vel: Vec, mass: PosReal, radius: real)

  /** The configuration constants the engine reads. */
  datatype Config = Config(
    width: real,         // box width
    height: real,        // box height
    split: real,         // x-coordinate of the partition
    holePos: real,       // y-coordinate of the bottom edge of the hole
    holeSize: real,      // height of the hole
    range: NonNegReal,   // interaction cutoff distance
    dt: PosReal,         // integration time step
    gasMode: bool)       // whether animation frames are written

  /** `Integer.MAX_VALUE`, the bound used while the balance time is unknown. */
  const IntegerMaxValue: real := 2147483647.0

  /** Time-limit sentinel: run until the balance time. */
  const DiscoverMode: int := -1

  /** Time-limit sentinel: run until twice the balance time. */
  const ExtendMode: int := -2

  /** Simulated time between two animation frames (10 frames per unit of time). */
  const AnimationOutputTimeLimit: real := 0.1
}
