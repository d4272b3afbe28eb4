/*
 * The engine's xorshift32 pseudo-random generator. Its whole state is one
 * 32-bit word; every draw replaces it by three xor-shift assignments.
 */
module FastPrng {

  /** The seed stored by `prng_seed`: zero would be a fixed point, so it is replaced. */
  function SeedState(seed: bv32): (r: bv32)
    ensures r != 0
    ensures seed != 0 ==> r == seed
  {
    if seed != 0 then seed else 0xdeadbeef
  }

  /**
   * One xorshift32 step: `x ^= x << 13; x ^= x >> 17; x ^= x << 5` on a
   * 32-bit word. Each xor-shift is invertible, so zero is the only state
   * that steps to zero, and zero steps to itself: that is why seeding
   * avoids it.
   */
  function Step(x: bv32): (r: bv32)
    ensures x != 0 <==> r != 0
  {
    var a := x ^ (x << 13);
    var b := a ^ (a >> 17);
    b ^ (b << 5)
  }

  /**
   * The bit pattern `prng_next_float` builds before subtracting 1.0f:
   * sign 0, exponent 127, and the top 23 bits of the new state as mantissa.
   * The float it denotes is 1 + m / 2^23 for the mantissa m, so the value
   * returned is exactly m / 2^23.
   */
  function FloatBits(x: bv32): (r: bv32)
    ensures r >> 23 == 0x7F
    ensures r & 0x007F_FFFF == Mantissa(x)
  {
    0x3F80_0000 | Mantissa(x)
  }

  /** The top 23 bits of a state: the random part of a float draw, below 2^23. */
  function Mantissa(x: bv32): (m: bv32)
    ensures m < 0x80_0000
  {
    x >> 9
  }

  /**
   * `prng_next_float() <= 0.5`, decided exactly on the mantissa: the draw is
   * m / 2^23, which is at most 1/2 iff m is at most 2^22.
   */
  predicate AtMostHalf(mantissa: bv32)
  {
    mantissa <= 0x40_0000
  }

  /** The state after n steps from x. */
  function Advance(x: bv32, n: nat): bv32
  {
    if n == 0 then x else Step(Advance(x, n - 1))
  }

  /** A seeded generator never reaches the zero state, however many draws it makes. */
  lemma {:induction false} AdvanceNonzero(x: bv32, n: nat)
    requires x != 0
    ensures Advance(x, n) != 0
  {
    if n > 0 {
      AdvanceNonzero(x, n - 1);
    }
  }

  class Prng {
    var state: bv32

    /** A generator embedded in a fresh machine and seeded by `prng_seed`. */
    constructor (seed: bv32)
      ensures state == SeedState(seed)
      ensures state != 0
    {
      state := SeedState(seed);
    }

    /** `prng_next_uint32`: advance the state by one step and return it. */
    method NextUint32() returns (x: bv32)
      modifies this
      ensures x == Step(old(state)) && state == x
      ensures old(state) != 0 ==> state != 0
    {
      x := Step(state);
      state := x;
    }

    /**
     * `prng_next_float`: the same advance as `NextUint32`; the draw is
     * returned as its mantissa m (the float is m / 2^23).
     */
    method NextFloat() returns (mantissa: bv32)
      modifies this
      ensures state == Step(old(state))
      ensures old(state) != 0 ==> state != 0
      ensures mantissa == Mantissa(state)
    {
      state := Step(state);
      mantissa := Mantissa(state);
    }
  }
}
