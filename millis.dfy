/**
 * Arithmetic on the firmware's 32-bit millisecond counter.
 *
 * `millis()` returns a `uint32_t` that wraps to 0 after about 49.7 days.
 * Deadlines are stored as `uint32_t` too and compared with the idiom
 * `(int32_t)(now - deadline) > 0`: an unsigned subtraction (modulo 2^32)
 * read back as a two's-complement signed value.
 */
module Millis {

  const MODULUS: int := 0x1_0000_0000
  const HALF: int := 0x8000_0000

  /** A `uint32_t` value. */
  type U32 = x: int | 0 <= x < 0x1_0000_0000

  /** An `int32_t` value. */
  type I32 = x: int | -0x8000_0000 <= x < 0x8000_0000

  /** Reduction of an unbounded integer into `uint32_t`. */
  function Wrap(x: int): (r: U32)
    ensures 0 <= x < MODULUS ==> r == x
  {
    x % MODULUS
  }

  /** `a - b` on `uint32_t`. */
  function Sub(a: U32, b: U32): (r: U32)
    ensures a >= b ==> r == a - b
    ensures a < b ==> r == MODULUS - (b - a)
  {
    if a >= b then a - b else a - b + MODULUS
  }

  /** `a + b` on `uint32_t`; it undoes `Sub`. */
  function Add(a: U32, b: U32): (r: U32)
    ensures Sub(r, b) == a
    ensures a + b < MODULUS ==> r == a + b
  {
    if a + b < MODULUS then a + b else a + b - MODULUS
  }

  /** The conversion of an `int32_t` to `uint32_t`, as when a signed value is compared with an unsigned one. */
  function FromInt32(v: I32): (r: U32)
    ensures v >= 0 ==> r == v
    ensures v < 0 ==> r >= HALF
  {
    if v < 0 then v + MODULUS else v
  }

  /** The cast `(int32_t)x` of a `uint32_t`; GCC keeps the bit pattern. */
  function ToInt32(x: U32): (r: I32)
    ensures FromInt32(r) == x
    ensures r < 0 <==> x >= HALF
  {
    if x < HALF then x else x - MODULUS
  }

  /** The two conversions are inverse bijections. */
  lemma Int32RoundTrip(v: I32, x: U32)
    ensures ToInt32(FromInt32(v)) == v
    ensures FromInt32(ToInt32(x)) == x
  {
  }

  /** The wrap-safe test `(int32_t)(now - deadline) > 0`: the deadline is strictly in the past. */
  predicate IsPast(now: U32, deadline: U32)
  {
    ToInt32(Sub(now, deadline)) > 0
  }

  /**
   * Wrap safety: whenever the true (unwrapped) times are less than 2^31 ms
   * apart, testing their wrapped counter values decides exactly whether the
   * deadline lies strictly before now, even across a counter overflow.
   */
  lemma IsPastMatchesTrueTime(t: int, d: int)
    requires -HALF < t - d < HALF
    ensures IsPast(Wrap(t), Wrap(d)) <==> t > d
  {
    var qt, qd := t / MODULUS, d / MODULUS;
    assert t == MODULUS * qt + Wrap(t);
    assert d == MODULUS * qd + Wrap(d);
    if qt == qd {
      assert Wrap(t) - Wrap(d) == t - d;
    } else if qt == qd + 1 {
      assert Wrap(t) - Wrap(d) == t - d - MODULUS;
    } else {
      assert Wrap(t) - Wrap(d) == t - d + MODULUS;
    }
  }

  /**
   * Advancing a past deadline by a step below 2^31 either leaves it in the
   * past, with the lag shrunk by exactly the step, or brings it level with or
   * beyond now.
   */
  lemma AdvancePastDeadline(now: U32, deadline: U32, step: U32)
    requires IsPast(now, deadline)
    requires step < HALF
    ensures IsPast(now, Add(deadline, step)) <==> step < Sub(now, deadline)
    ensures IsPast(now, Add(deadline, step)) ==> Sub(now, Add(deadline, step)) == Sub(now, deadline) - step
  {
  }

  /** The outcome of evaluating a periodic deadline cell: whether it fired, and its new value. */
  datatype Fire = Fire(fired: bool, next: U32)
}
