/** The C# `int` type: 32-bit two's complement, with unchecked (wrapping) arithmetic. */
module Int32 {

  const MIN: int := -0x8000_0000
  const MAX: int := 0x7fff_ffff
  /** The number of Int32 values; unchecked arithmetic works modulo this. */
  const MODULUS: int := 0x1_0000_0000

  predicate InRange(x: int) {
    MIN <= x <= MAX
  }

  type Int32 = x: int | -0x8000_0000 <= x <= 0x7fff_ffff

  /** The Int32 value congruent to `x` modulo 2^32: what an unchecked C# operation produces. */
  function Wrap(x: int): (r: Int32)
    ensures InRange(x) ==> r == x
    ensures (r - x) % MODULUS == 0
  {
    (x - MIN) % MODULUS + MIN
  }

  /** Unchecked `a - b`. */
  function Sub(a: Int32, b: Int32): Int32 {
    Wrap(a - b)
  }

  /** Unchecked `a + b`. */
  function Add(a: Int32, b: Int32): Int32 {
    Wrap(a + b)
  }

  /** Unchecked `a * b`. */
  function Mul(a: Int32, b: Int32): Int32 {
    Wrap(a * b)
  }

  /** Two integers that differ by a multiple of 2^32 wrap to the same Int32. */
  lemma WrapCongruent(x: int, y: int)
    requires (x - y) % MODULUS == 0
    ensures Wrap(x) == Wrap(y)
  {
    var d := Wrap(x) - Wrap(y);
    assert (d - (x - y)) % MODULUS == 0 by {
      WrapShift(Wrap(x) - x, -(Wrap(y) - y));
    }
    WrapShift(d - (x - y), x - y);
    assert -MODULUS < d < MODULUS;
  }

  /** A sum of two multiples of 2^32 is one. */
  lemma WrapShift(a: int, b: int)
    requires a % MODULUS == 0 && b % MODULUS == 0
    ensures (a + b) % MODULUS == 0
  {
    var qa, qb := a / MODULUS, b / MODULUS;
    assert a == qa * MODULUS;
    assert b == qb * MODULUS;
    assert a + b == (qa + qb) * MODULUS;
  }

  /** Wrapping the left factor first does not change the wrapped product. */
  lemma WrapMulLeft(a: int, b: int)
    ensures Wrap(Wrap(a) * b) == Wrap(a * b)
  {
    var k := (Wrap(a) - a) / MODULUS;
    assert Wrap(a) - a == k * MODULUS;
    assert Wrap(a) * b - a * b == (k * b) * MODULUS;
    WrapCongruent(Wrap(a) * b, a * b);
  }

  /** Wrapping the left summand first does not change the wrapped sum. */
  lemma WrapAddLeft(a: int, b: int)
    ensures Wrap(Wrap(a) + b) == Wrap(a + b)
  {
    WrapCongruent(Wrap(a) + b, a + b);
  }
}
