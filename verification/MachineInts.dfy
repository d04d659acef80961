/** Go's fixed-width integers: wrap-around and truncating division. */
module MachineInts {
  const INT64_HALF: int := 0x8000_0000_0000_0000
  const INT32_HALF: int := 0x8000_0000

  /** Two's complement wrap-around of an int64. */
  function Wrap64(n: int): int {
    (n + INT64_HALF) % (2 * INT64_HALF) - INT64_HALF
  }

  /** The conversion of an int to an int32. */
  function Wrap32(n: int): int {
    (n + INT32_HALF) % (2 * INT32_HALF) - INT32_HALF
  }

  predicate IsInt64(n: int) {
    -INT64_HALF <= n < INT64_HALF
  }

  predicate IsInt32(n: int) {
    -INT32_HALF <= n < INT32_HALF
  }

  /** Division truncates toward zero. */
  function TruncDiv(a: int, b: int): int
    requires b > 0
  {
    if a >= 0 then a / b else -(-a / b)
  }

  lemma Wrap64Id(n: int)
    requires IsInt64(n)
    ensures Wrap64(n) == n
  {
  }

  /** Wrap-around adds a multiple of the number of values and ends in the range of the type, so there is one result. */
  lemma Wraps64(n: int)
    ensures -0x8000_0000_0000_0000 <= Wrap64(n) <= 0x7FFF_FFFF_FFFF_FFFF
    ensures exists q: int :: Wrap64(n) == n + q * 0x1_0000_0000_0000_0000
  {
    var q := (n + INT64_HALF) / (2 * INT64_HALF);
    assert Wrap64(n) == n + (-q) * 0x1_0000_0000_0000_0000;
  }

  lemma Wraps32(n: int)
    ensures -0x8000_0000 <= Wrap32(n) <= 0x7FFF_FFFF
    ensures exists q: int :: Wrap32(n) == n + q * 0x1_0000_0000
  {
    var q := (n + INT32_HALF) / (2 * INT32_HALF);
    assert Wrap32(n) == n + (-q) * 0x1_0000_0000;
  }

  /** The quotient loses its fraction, on either side of zero. */
  lemma Truncates(a: int, b: int)
    requires b > 0
    ensures a >= 0 ==> 0 <= a - TruncDiv(a, b) * b < b
    ensures a <= 0 ==> 0 <= TruncDiv(a, b) * b - a < b
  {
    assert a % b == a - a / b * b && -a % b == -a - -a / b * b;
    assert -(-a / b) * b == -(-a / b * b);
  }
}
