/**
 Go's 64-bit signed integers: unbounded integers reduced into the range by wrap-around.
 */
module Int64 {

  const TWO_63: int := 0x8000_0000_0000_0000
  const TWO_64: int := 0x1_0000_0000_0000_0000

  /** The values an int64 (and a PostgreSQL BIGINT) can hold. */
  predicate InRange(x: int) {
    -TWO_63 <= x < TWO_63
  }

  type int64 = x: int | InRange(x) witness 0

  /** The int64 that Go computes when the exact result is `x`. */
  function Wrap(x: int): int64 {
    (x + TWO_63) % TWO_64 - TWO_63
  }

  /** Multiples of 2^64 disappear. */
  lemma WrapShift(x: int, k: int)
    ensures Wrap(x + TWO_64 * k) == Wrap(x)
  {
  }

  /** Values that differ by a multiple of 2^64 wrap to the same int64. */
  lemma WrapShifted(x: int, y: int, k: int)
    requires x == y + TWO_64 * k
    ensures Wrap(x) == Wrap(y)
  {
    WrapShift(y, k);
  }

  /** A value in range is kept, any other one changed by a multiple of 2^64. */
  lemma WrapMeans(x: int)
    ensures InRange(x) ==> Wrap(x) == x
    ensures Wrap(x) == x - TWO_64 * ((x + TWO_63) / TWO_64)
  {
  }

  /** Values that agree modulo 2^64 wrap to the same int64. */
  lemma WrapIsCongruence(x: int, y: int)
    requires (x - y) % TWO_64 == 0
    ensures Wrap(x) == Wrap(y)
  {
    var k := (x - y) / TWO_64;
    assert x == y + TWO_64 * k;
    WrapShift(y, k);
  }

  /** Wrapping each partial sum is the same as wrapping once at the end. */
  lemma WrapAdd(x: int, y: int)
    ensures Wrap(Wrap(x) + y) == Wrap(x + y)
  {
    var k := (x + TWO_63) / TWO_64;
    assert Wrap(x) + y == (x + y) + TWO_64 * -k by { WrapMeans(x); }
    WrapShift(x + y, -k);
  }
}
