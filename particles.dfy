/** `update_particles`, reduced to what does not depend on floating-point
    numerics or randomness: a paused frame leaves every particle as it was.
    The integrator itself (inverse-square pull, respawn inside an event
    horizon, toroidal wrap) is the parameter `integrate`. */
module Particles {
  import opened Bodies

  /** One frame of the particle system. */
  function Step(paused: bool, particles: seq<Particle>, integrate: seq<Particle> -> seq<Particle>): (r: seq<Particle>)
    ensures paused ==> r == particles
    ensures !paused ==> r == integrate(particles)
  {
    if paused then particles else integrate(particles)
  }

  /** `n` frames under the same pause flag. */
  function Frames(paused: bool, particles: seq<Particle>, integrate: seq<Particle> -> seq<Particle>, n: nat): seq<Particle>
  {
    if n == 0 then particles else Step(paused, Frames(paused, particles, integrate, n - 1), integrate)
  }

  /** Pausing freezes every particle for any number of frames, and the first
      frame after unpausing integrates from exactly the frozen state. */
  lemma {:induction false} PausedFramesFreeze(particles: seq<Particle>, integrate: seq<Particle> -> seq<Particle>, n: nat)
    ensures Frames(true, particles, integrate, n) == particles
    ensures Step(false, Frames(true, particles, integrate, n), integrate) == integrate(particles)
  {
    if n > 0 {
      PausedFramesFreeze(particles, integrate, n - 1);
    }
  }
}
