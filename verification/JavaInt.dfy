/** Java's fixed-width integer arithmetic, written out on Dafny's unbounded `int`. */
module JavaInt {

  const TWO_29: int := 0x2000_0000
  const TWO_31: int := 0x8000_0000
  const TWO_32: int := 0x1_0000_0000
  const TWO_63: int := 0x8000_0000_0000_0000
  const TWO_64: int := 0x1_0000_0000_0000_0000

  type JLong = x: int | -0x8000_0000_0000_0000 <= x < 0x8000_0000_0000_0000

  /** The value a Java `int` holds after overflow: the representative of `x` modulo 2^32. */
  function Int32(x: int): (r: int)
    ensures -TWO_31 <= r < TWO_31
    ensures r % TWO_32 == x % TWO_32
    ensures -TWO_31 <= x < TWO_31 ==> r == x
  {
    if -TWO_31 <= x < TWO_31 then x else (x + TWO_31) % TWO_32 - TWO_31
  }

  /** The value a Java `long` holds after overflow: the representative of `x` modulo 2^64. */
  function Int64(x: int): (r: JLong)
    ensures r % TWO_64 == x % TWO_64
    ensures -TWO_63 <= x < TWO_63 ==> r == x
  {
    if -TWO_63 <= x < TWO_63 then x else (x + TWO_63) % TWO_64 - TWO_63
  }

  /** Counting up in an `int` is counting modulo 2^32. */
  lemma Int32Next(n: int)
    ensures Int32(Int32(n) + 1) == Int32(n + 1)
  {
    var q := (n - Int32(n)) / TWO_32;
    assert n - Int32(n) == TWO_32 * q;
    Congruent(Int32(n) + 1, n + 1, q);
  }

  lemma Congruent(a: int, b: int, q: int)
    requires b == a + 0x1_0000_0000 * q
    ensures Int32(a) == Int32(b)
  {
    assert (a + TWO_31) % TWO_32 == (b + TWO_31) % TWO_32;
  }
}
