/** Go's 64-bit integers: values in range, arithmetic modulo 2^64. */
module GoInts {
  const TWO_TO_64: int := 0x1_0000_0000_0000_0000
  const TWO_TO_63: int := 0x8000_0000_0000_0000

  type uint64 = x: int | 0 <= x < TWO_TO_64
  type int64 = x: int | -TWO_TO_63 <= x < TWO_TO_63

  /** Two's complement of 64 bits. */
  function ToInt64(x: int): int64 {
    var m := x % TWO_TO_64;
    if m < TWO_TO_63 then m else m - TWO_TO_64
  }

  predicate FitsInt64(x: int) {
    -TWO_TO_63 <= x < TWO_TO_63
  }

  /** ToInt64 picks the one 64-bit integer that agrees modulo 2^64. */
  lemma ToInt64Agrees(x: int, y: int64)
    ensures ToInt64(x) == y <==> (x - y) % TWO_TO_64 == 0
  {
    var z, q := ToInt64(x), x / TWO_TO_64;
    assert x == TWO_TO_64 * q + x % TWO_TO_64;
    if (x - y) % TWO_TO_64 == 0 {
      var a := (x - y) / TWO_TO_64;
      assert x - y == TWO_TO_64 * a;
      assert z - y == TWO_TO_64 * (if x % TWO_TO_64 < TWO_TO_63 then a - q else a - q - 1);
    }
  }

  /** Wrapping a factor first does not change the wrapped product. */
  lemma WrapTwice(x: int, k: int)
    ensures ToInt64(ToInt64(x) * k) == ToInt64(x * k)
  {
    var q := x / TWO_TO_64;
    var d := if x % TWO_TO_64 < TWO_TO_63 then q else q + 1;
    assert x == ToInt64(x) + TWO_TO_64 * d;
    assert x * k == ToInt64(x) * k + TWO_TO_64 * (d * k);
    ToInt64Agrees(x * k, ToInt64(ToInt64(x) * k));
    ToInt64Agrees(ToInt64(x) * k, ToInt64(ToInt64(x) * k));
    SumOfMultiples(ToInt64(x) * k - ToInt64(ToInt64(x) * k), d * k);
  }

  lemma SumOfMultiples(a: int, q: int)
    requires a % TWO_TO_64 == 0
    ensures (a + TWO_TO_64 * q) % TWO_TO_64 == 0
  {
    assert a + TWO_TO_64 * q == TWO_TO_64 * (a / TWO_TO_64 + q);
  }
}
