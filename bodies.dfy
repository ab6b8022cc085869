/** Values shared by every system of the simulator: positions, black holes,
    particles, the floored decrement used by two controls, and the law that
    derives a black hole's event horizon from its mass.

    `real` stands in for `f32` throughout. */
module Bodies {

  /** A position in the window; the engine's z coordinate is always 0 for
      black holes and particles and is dropped. */
  datatype Vec2 = Vec2(x: real, y: real)

  /** A `BlackHole` component together with the translation of its entity. */
  datatype BlackHole = BlackHole(pos: Vec2, mass: real, eventHorizon: real)

  /** A `Particle` component together with the translation of its entity. */
  datatype Particle = Particle(pos: Vec2, velocity: Vec2, mass: real)

  /** The mass that gives the base radius (the divisor under the square root). */
  const ReferenceMass: real := 1000.0
  /** The event horizon of a black hole of ReferenceMass. */
  const BaseRadius: real := 15.0
  /** The mass of the black hole created at start-up and by the N key. */
  const InitialMass: real := 1000.0

  function Max(a: real, b: real): (r: real)
    ensures r >= a && r >= b
    ensures r == a || r == b
  {
    if a >= b then a else b
  }

  /** `(v - step).max(floor)`: the decrement both the mass and the particle
      size controls use. */
  function SubtractFloored(v: real, step: real, floor: real): (r: real)
    requires step >= 0.0
    ensures r >= floor
    ensures v >= floor ==> r <= v
    ensures v - step >= floor ==> r == v - step
    ensures v - step < floor ==> r == floor
  {
    Max(v - step, floor)
  }

  /** The value after `n` consecutive floored decrements. */
  function SubtractFlooredTimes(v: real, step: real, floor: real, n: nat): real
    requires step >= 0.0
  {
    if n == 0 then v else SubtractFloored(SubtractFlooredTimes(v, step, floor, n - 1), step, floor)
  }

  /** `n` steps of size `step` taken together. */
  function Times(n: nat, step: real): real
  {
    (n as real) * step
  }

  /** However many decrements are applied, the value is the plain difference
      cut at the floor: it never goes below the floor. */
  lemma {:induction false} SubtractFlooredTimesClosedForm(v: real, step: real, floor: real, n: nat)
    requires step >= 0.0
    ensures n > 0 ==> SubtractFlooredTimes(v, step, floor, n) == Max(v - Times(n, step), floor)
    ensures n > 0 ==> SubtractFlooredTimes(v, step, floor, n) >= floor
  {
    if n > 1 {
      SubtractFlooredTimesClosedForm(v, step, floor, n - 1);
      TimesSuccessor(n - 1, step);
      MaxShift(v - Times(n - 1, step), step, floor);
    }
  }

  lemma TimesSuccessor(k: nat, step: real)
    ensures Times(k + 1, step) == Times(k, step) + step
  {
  }

  lemma MaxShift(x: real, step: real, floor: real)
    requires step >= 0.0
    ensures Max(Max(x, floor) - step, floor) == Max(x - step, floor)
  {
  }

  /** `eh` is the event-horizon law `sqrt(mass / ReferenceMass) * BaseRadius`
      on every nonnegative mass: its value is nonnegative and its square is
      `mass / ReferenceMass * BaseRadius²`. The square root itself has no
      definition here, so every operation takes the law as a parameter. */
  ghost predicate IsHorizonLaw(eh: real -> real)
  {
    forall m: real :: 0.0 <= m ==> 0.0 <= eh(m) && eh(m) * eh(m) == m / ReferenceMass * (BaseRadius * BaseRadius)
  }

  /** The event horizon was derived from the current mass. */
  predicate HorizonMatchesMass(h: BlackHole, eh: real -> real)
  {
    h.eventHorizon == eh(h.mass)
  }

  /** A black hole of ReferenceMass has an event horizon of BaseRadius. */
  lemma HorizonAtReferenceMass(eh: real -> real)
    requires IsHorizonLaw(eh)
    ensures eh(ReferenceMass) == BaseRadius
  {
    var r := eh(ReferenceMass);
    assert 0.0 <= r && r * r == BaseRadius * BaseRadius;
    if r < BaseRadius {
      SquareStrictlyMonotone(r, BaseRadius);
    } else if r > BaseRadius {
      SquareStrictlyMonotone(BaseRadius, r);
    }
  }

  /** A heavier black hole never has a smaller event horizon. */
  lemma HorizonMonotone(eh: real -> real, m1: real, m2: real)
    requires IsHorizonLaw(eh)
    requires 0.0 <= m1 <= m2
    ensures eh(m1) <= eh(m2)
  {
    var a, b := eh(m1), eh(m2);
    assert 0.0 <= b && a * a <= b * b;
    if a > b {
      SquareStrictlyMonotone(b, a);
    }
  }

  lemma SquareStrictlyMonotone(a: real, b: real)
    requires 0.0 <= a < b
    ensures a * a < b * b
  {
    var ab := a * b;
    assert a * a <= ab;
    assert ab < b * b;
  }

  /** The black hole the N key spawns at `pos`: initial mass, horizon derived
      from it. */
  function NewBlackHole(pos: Vec2, eh: real -> real): (h: BlackHole)
    ensures h.pos == pos && h.mass == InitialMass
    ensures HorizonMatchesMass(h, eh)
  {
    BlackHole(pos, InitialMass, eh(InitialMass))
  }

  /** Under the horizon law, a black hole spawned by N has an event horizon
      of BaseRadius. */
  lemma NewBlackHoleHorizon(pos: Vec2, eh: real -> real)
    requires IsHorizonLaw(eh)
    ensures NewBlackHole(pos, eh).eventHorizon == BaseRadius
  {
    HorizonAtReferenceMass(eh);
  }

  /** The black hole set up at start-up, with its horizon written as the
      literal 15. */
  function StartupBlackHole(width: real, height: real): BlackHole
  {
    BlackHole(Vec2(width / 2.0, height / 2.0), InitialMass, BaseRadius)
  }

  /** The start-up black hole's literal horizon agrees with the law, so a
      spawned black hole equals the start-up one at the same place. */
  lemma StartupHoleFollowsLaw(eh: real -> real, width: real, height: real)
    requires IsHorizonLaw(eh)
    ensures HorizonMatchesMass(StartupBlackHole(width, height), eh)
    ensures NewBlackHole(Vec2(width / 2.0, height / 2.0), eh) == StartupBlackHole(width, height)
  {
    HorizonAtReferenceMass(eh);
  }
}
