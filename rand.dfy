/**
 * The random source of the sampler (Go's *rand.Rand): an infinite stream of
 * uniform draws in [0,1) and the position of the next one, so that the order
 * in which draws are consumed is explicit and replay is deterministic.
 */
module Rand {

  /** A value of `rand.Float64()`: a real in [0,1). */
  type Draw = d: real | 0.0 <= d < 1.0

  datatype Drawn = Drawn(value: Draw, rest: Rng)

  datatype Rng = Rng(stream: nat -> Draw, next: nat) {

    /** `rnd.Float64()`: the next value of the stream; the source moves on by exactly one draw. */
    function Float64(): Drawn {
      Drawn(stream(next), Rng(stream, next + 1))
    }
  }
}
