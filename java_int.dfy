/** Java's 32-bit `int`: its range and two's-complement wrap-around. */
module JavaInt {

  const MIN_INT: int := -0x8000_0000
  const MAX_INT: int := 0x7fff_ffff
  const MODULUS: int := 0x1_0000_0000

  /** The values a Java `int` (or a non-null `Integer`) can hold. */
  type int32 = x: int | -0x8000_0000 <= x <= 0x7fff_ffff

  /** The `int` Java produces for the mathematical value `x`: the unique value
      in range that is congruent to `x` modulo 2^32. */
  function Wrap(x: int): (r: int32)
    ensures MIN_INT <= x <= MAX_INT ==> r == x
  {
    (x - MIN_INT) % MODULUS + MIN_INT
  }

  /** The wrapped value differs from the true one by a multiple of 2^32. */
  lemma WrapDiffers(x: int)
    ensures (x - Wrap(x)) % MODULUS == 0
  {
  }

  /** Java `a + b` on two ints. */
  function Add(a: int32, b: int32): int32 {
    Wrap(a as int + b)
  }

  /** Java `a - b` on two ints. */
  function Sub(a: int32, b: int32): int32 {
    Wrap(a as int - b)
  }

  /** Java unary `-a` on an int. */
  function Neg(a: int32): int32 {
    Wrap(-(a as int))
  }

  /** Two mathematical values congruent modulo 2^32 wrap to the same int. */
  lemma WrapCongruent(x: int, y: int)
    requires (x - y) % MODULUS == 0
    ensures Wrap(x) == Wrap(y)
  {
    var k := (x - y) / MODULUS;
    assert x - y == k * MODULUS;
    assert x - MIN_INT == (y - MIN_INT) + k * MODULUS;
  }

  /** Subtracting after a wrap is the same as wrapping once at the end: a run of
      Java subtractions equals the wrapped mathematical difference. */
  lemma WrapSub(x: int, q: int)
    ensures Wrap(Wrap(x) - q) == Wrap(x - q)
  {
    WrapDiffers(x);
    WrapCongruent(Wrap(x) - q, x - q);
  }

  /** For a non-negative stock, Java's `stock + delta` is negative exactly when the
      true sum is negative or does not fit in an int: the overflow is caught by
      the `newStock < 0` test. */
  lemma AddNonNegative(s: int32, d: int32)
    requires 0 <= s
    ensures Add(s, d) >= 0 <==> 0 <= s + d <= MAX_INT
    ensures Add(s, d) >= 0 ==> Add(s, d) == s + d
  {
    if s + d > MAX_INT {
      assert Wrap(s + d) == s + d - MODULUS by {
        WrapCongruent(s + d, s + d - MODULUS);
      }
    }
  }

  /** Java's `(s + d) + (-d)` is `s` again, for every pair of ints, including
      `d == -2^31`, whose negation is itself. */
  lemma AddNegCancels(s: int32, d: int32)
    ensures Add(Add(s, d), Neg(d)) == s
  {
    var sum := s as int + d;
    WrapDiffers(sum);
    WrapDiffers(-(d as int));
    var a := (sum - Wrap(sum)) / MODULUS;
    var b := (-(d as int) - Neg(d)) / MODULUS;
    assert Wrap(sum) + Neg(d) - s == -(a + b) * MODULUS;
    WrapCongruent(Wrap(sum) + Neg(d), s);
  }
}
