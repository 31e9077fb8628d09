/** The random source and the cancellation poll, supplied to the generator as inputs.
    The current code draws from a std::default_random_engine through three distributions
    (src/randomGenerator.cpp); the 2012 copy calls rand() and reduces the result itself.
    Both are modelled as one ordered stream of draws, consumed one element per call. */
module Randomness {

  /** Which copy of the generator is being modelled: the current one under src/ or the
      2012 one under TreeGenerator/. */
  datatype Variant = Current | Legacy

  /** One call's worth of randomness. The current code reads the field of the distribution
      it asks for (an int in [0,100], a real in [-1,1], an int in [-360,360]); the 2012
      code reads `raw`, the value rand() returned, and reduces it. */
  datatype Draw = Draw(percent: int, unit: real, degrees: int, raw: nat)

  predicate ValidDraw(d: Draw)
  {
    0 <= d.percent <= 100 && -1.0 <= d.unit <= 1.0 && -360 <= d.degrees <= 360
  }

  /** Draw k is what the k-th call to the generator returns. */
  type Stream = nat -> Draw

  ghost predicate ValidStream(s: Stream)
  {
    forall k: nat :: ValidDraw(s(k))
  }

  /** Poll k answers whether the user had cancelled by the k-th cancellation check. */
  type CancelOracle = nat -> bool

  /** A draw in [0,100]: Random::Generate(0, 100), or rand() % 101. */
  function Percent(v: Variant, d: Draw): (p: int)
    requires ValidDraw(d)
    ensures 0 <= p <= 100
  {
    match v
    case Current => d.percent
    case Legacy => d.raw % 101
  }

  /** A draw in [-1,1]: Random::Generate(-1.0, 1.0), or (rand() % 201) / 100 - 1. */
  function Unit(v: Variant, d: Draw): (u: real)
    requires ValidDraw(d)
    ensures -1.0 <= u <= 1.0
  {
    match v
    case Current => d.unit
    case Legacy => (d.raw % 201) as real / 100.0 - 1.0
  }

  /** A whole number of degrees in [-360,360]: Random::Generate(-360, 360), or rand() % 721 - 360. */
  function Degrees(v: Variant, d: Draw): (a: int)
    requires ValidDraw(d)
    ensures -360 <= a <= 360
  {
    match v
    case Current => d.degrees
    case Legacy => d.raw % 721 - 360
  }
}
