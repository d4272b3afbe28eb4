/*
 * The helpers of the native engine's utility header, and the C integer
 * conventions that the rest of the model needs written out: fixed-width
 * conversions (two's complement wrap-around, as the compilers the engine
 * targets perform it) and division that truncates toward zero.
 */
module Utility {

  const INT8_MIN: int := -128
  const INT8_MAX: int := 127
  const SHRT_MIN: int := -32768
  const SHRT_MAX: int := 32767
  const INT32_MAX: int := 0x7FFF_FFFF
  const UINT32_MAX: int := 0xFFFF_FFFF

  predicate IsInt8(x: int) { INT8_MIN <= x <= INT8_MAX }
  predicate IsUint8(x: int) { 0 <= x < 0x100 }
  predicate IsInt16(x: int) { SHRT_MIN <= x <= SHRT_MAX }
  predicate IsInt32(x: int) { -0x8000_0000 <= x <= INT32_MAX }
  predicate IsUint32(x: int) { 0 <= x <= UINT32_MAX }

  /** `clip(x, threshold)`: the value of x pulled into [-threshold, threshold]. */
  function Clip(x: int, t: int): (r: int)
    ensures t >= 0 ==> -t <= r <= t
    ensures -t <= x <= t ==> r == x
    ensures t >= 0 && x > t ==> r == t
    ensures t >= 0 && x < -t ==> r == -t
  {
    if x > t then t
    else if x < -t then -t
    else x
  }

  lemma ClipIdempotent(x: int, t: int)
    requires t >= 0
    ensures Clip(Clip(x, t), t) == Clip(x, t)
  {
  }

  lemma ClipMonotone(x: int, y: int, t: int)
    requires t >= 0 && x <= y
    ensures Clip(x, t) <= Clip(y, t)
  {
  }

  /** The `min` macro: the smaller of its two arguments. */
  function Min(a: int, b: int): (r: int)
    ensures r <= a && r <= b
    ensures r == a || r == b
  {
    if a < b then a else b
  }

  /** Conversion of an int to `int8_t`: the unique int8 value congruent to x modulo 2^8. */
  function ToInt8(x: int): (r: int)
    ensures IsInt8(r)
    ensures (x - r) % 0x100 == 0
    ensures IsInt8(x) ==> r == x
  {
    var m := x % 0x100;
    if m > INT8_MAX then m - 0x100 else m
  }

  /** Conversion of an int to `int16_t`. */
  function ToInt16(x: int): (r: int)
    ensures IsInt16(r)
    ensures (x - r) % 0x1_0000 == 0
    ensures IsInt16(x) ==> r == x
  {
    var m := x % 0x1_0000;
    if m > SHRT_MAX then m - 0x1_0000 else m
  }

  /** Conversion of an int to `int32_t` (used where a `uint32_t` is cast to `int32_t`). */
  function ToInt32(x: int): (r: int)
    ensures IsInt32(r)
    ensures (x - r) % 0x1_0000_0000 == 0
    ensures IsInt32(x) ==> r == x
  {
    var m := x % 0x1_0000_0000;
    if m > INT32_MAX then m - 0x1_0000_0000 else m
  }

  /** Conversion of an int to `uint8_t`. */
  function ToUint8(x: int): (r: int)
    ensures IsUint8(r)
    ensures (x - r) % 0x100 == 0
    ensures IsUint8(x) ==> r == x
  {
    x % 0x100
  }

  /** Conversion of an int to `uint32_t`. */
  function ToUint32(x: int): (r: int)
    ensures IsUint32(r)
    ensures (x - r) % 0x1_0000_0000 == 0
    ensures IsUint32(x) ==> r == x
  {
    x % 0x1_0000_0000
  }

  /**
   * C's `a / 2`, which truncates toward zero: the remainder `a - 2 * r`
   * has the sign of `a` and is smaller than 2 in magnitude.
   */
  function HalfTowardZero(a: int): (r: int)
    ensures a >= 0 ==> 0 <= a - 2 * r <= 1
    ensures a < 0 ==> -1 <= a - 2 * r <= 0
  {
    if a >= 0 then a / 2 else -((-a) / 2)
  }
}
